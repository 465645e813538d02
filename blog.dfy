/** The blog record (src/types/blog.ts) and facts about collections of records
    that every page relies on: ids, and the "update every record with this id"
    map that both soft delete and edit are built from. */
module BlogTypes {
  import opened Wrappers

  /** `BlogStatus = "draft" | "published"`. */
  datatype BlogStatus = Draft | Published

  /** The string a status is stored and compared as. */
  function StatusName(s: BlogStatus): (name: string)
    ensures name == "draft" || name == "published"
  {
    match s
    case Draft => "draft"
    case Published => "published"
  }

  /** The status a string names, if any; the inverse of `StatusName`. */
  function ParseStatus(name: string): (r: Option<BlogStatus>)
    ensures r.Some? <==> name == "draft" || name == "published"
  {
    if name == "draft" then Some(Draft)
    else if name == "published" then Some(Published)
    else None
  }

  /** Reading back a stored status name gives the status. */
  lemma ParseStatusName(s: BlogStatus)
    ensures ParseStatus(StatusName(s)) == Some(s)
  {
  }

  /** A stored record. Timestamps (`createdAt`, `deletedAt`) are milliseconds
      since the epoch; `image` and `deletedAt` are the interface's optional
      fields, every other field is required. */
  datatype Blog = Blog(
    id: string,
    title: string,
    description: string,
    category: string,
    author: string,
    image: Option<string>,
    publishDate: string,
    status: BlogStatus,
    createdAt: int,
    isDeleted: bool,
    deletedAt: Option<int>)

  /** What the blog form submits: the record without `id`, `createdAt` and the
      deletion fields. `image` is `None` when the key is absent. */
  datatype BlogData = BlogData(
    title: string,
    description: string,
    category: string,
    author: string,
    publishDate: string,
    status: BlogStatus,
    image: Option<string>)

  /** The content fields of a record: what the form shows and submits. */
  function ContentOf(b: Blog): BlogData {
    BlogData(b.title, b.description, b.category, b.author, b.publishDate, b.status, b.image)
  }

  /** No two records of the collection share an id. */
  ghost predicate UniqueIds(xs: seq<Blog>) {
    forall i, j :: 0 <= i < j < |xs| ==> xs[i].id != xs[j].id
  }

  /** `id` is the id of no record of the collection. */
  ghost predicate FreshId(xs: seq<Blog>, id: string) {
    forall b :: b in xs ==> b.id != id
  }

  /** The ids of the collection, in order. */
  function Ids(xs: seq<Blog>): (ids: seq<string>)
    ensures |ids| == |xs|
    ensures forall i :: 0 <= i < |xs| ==> ids[i] == xs[i].id
  {
    seq(|xs|, i requires 0 <= i < |xs| => xs[i].id)
  }

  /** The lifecycle invariant of one record: `deletedAt` is present exactly
      when the record is soft-deleted. */
  predicate DeletionConsistent(b: Blog) {
    b.isDeleted <==> b.deletedAt.Some?
  }

  /** `xs.map(b => b.id === id ? f(b) : b)`. */
  function UpdateById(xs: seq<Blog>, id: string, f: Blog -> Blog): (r: seq<Blog>)
    ensures |r| == |xs|
    ensures forall i :: 0 <= i < |xs| ==> r[i] == if xs[i].id == id then f(xs[i]) else xs[i]
  {
    if xs == [] then []
    else [if xs[0].id == id then f(xs[0]) else xs[0]] + UpdateById(xs[1..], id, f)
  }

  /** An update that keeps every record's id keeps the id sequence,
      so it keeps ids unique. */
  lemma UpdateByIdKeepsIds(xs: seq<Blog>, id: string, f: Blog -> Blog)
    requires forall b :: b in xs ==> f(b).id == b.id
    ensures Ids(UpdateById(xs, id, f)) == Ids(xs)
    ensures UniqueIds(xs) ==> UniqueIds(UpdateById(xs, id, f))
  {
  }

  /** `xs.find(b => b.id === id)`: the first record with that id. */
  function FindById(xs: seq<Blog>, id: string): (r: Option<Blog>)
    ensures r.None? <==> FreshId(xs, id)
    ensures r.Some? ==> r.value in xs && r.value.id == id
    ensures r.Some? ==> exists k :: 0 <= k < |xs| && xs[k] == r.value &&
                                    forall j :: 0 <= j < k ==> xs[j].id != id
  {
    if xs == [] then None
    else if xs[0].id == id then Some(xs[0])
    else
      var r := FindById(xs[1..], id);
      assert r.Some? ==> forall j :: 0 <= j < 1 ==> xs[j].id != id;
      assert forall b :: b in xs ==> b == xs[0] || b in xs[1..];
      r
  }

  /** With unique ids, the record found is the only one with that id. */
  lemma FindByIdUnique(xs: seq<Blog>, id: string, b: Blog)
    requires UniqueIds(xs)
    requires b in xs && b.id == id
    ensures FindById(xs, id) == Some(b)
  {
  }
}
