/** The Postgres side of the pipeline: the tables a bundle is mirrored into. A knowledge item is known
    by its unique slug, a version by its row number, chunk rows stand in creation order. */
module Store {
  import opened Strings
  import opened Okf

  type Vec = seq<real>

  datatype ItemStatus = Draft | Live | Archived

  datatype VersionStatus = Published | PendingReview | Rejected

  datatype Provenance = Provenance(resource: Option<string>, sourcePages: seq<string>)

  datatype Item = Item(title: string, status: ItemStatus, kind: PageType, domain: Option<string>,
                       provenance: Option<Provenance>, current: Option<nat>)

  datatype Version = Version(item: string, number: nat, status: VersionStatus, title: string, body: string)

  datatype Chunk = Chunk(id: nat, item: string, version: nat, index: nat, text: string, vector: Option<Vec>)

  datatype Origin = Similarity | Explicit

  datatype WikiLink = WikiLink(source: string, target: string, relation: string, score: real, origin: Origin)

  datatype Db = Db(items: map<string, Item>, versions: seq<Version>, chunks: seq<Chunk>, tags: set<(string, string)>,
                   links: set<WikiLink>, nextChunk: nat)

  const EmptyDb := Db(map[], [], [], {}, {}, 0)

  /** The session: rows as mutable fields. */
  class Session {
    var items: map<string, Item>
    var versions: seq<Version>
    var chunks: seq<Chunk>
    var tags: set<(string, string)>
    var links: set<WikiLink>
    var nextChunk: nat

    function View(): Db
      reads this
    {
      Db(items, versions, chunks, tags, links, nextChunk)
    }
  }
}
