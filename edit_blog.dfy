/** The edit page (src/pages/EditBlog.tsx): find the record of the route id at
    mount, and on submit reload (and so purge), merge the form data into the
    record with that id, save. */
module EditBlog {
  import opened Wrappers
  import opened BlogTypes
  import opened Storage

  /** `{ ...b, ...data }`: every submitted field overrides the record's; an
      absent `image` key leaves the record's image. */
  function ApplyEdit(b: Blog, data: BlogData): (r: Blog)
    ensures ContentOf(r) == data.(image := if data.image.Some? then data.image else b.image)
    ensures r.id == b.id && r.createdAt == b.createdAt
    ensures r.isDeleted == b.isDeleted && r.deletedAt == b.deletedAt
  {
    b.(title := data.title, description := data.description, category := data.category,
       author := data.author, publishDate := data.publishDate, status := data.status,
       image := if data.image.Some? then data.image else b.image)
  }

  /** `getBlogs().map(b => b.id === id ? { ...b, ...data } : b)`. */
  function EditById(xs: seq<Blog>, id: string, data: BlogData): (r: seq<Blog>)
    ensures |r| == |xs|
    ensures forall i :: 0 <= i < |xs| && xs[i].id == id ==> r[i] == ApplyEdit(xs[i], data)
    ensures forall i :: 0 <= i < |xs| && xs[i].id != id ==> r[i] == xs[i]
  {
    UpdateById(xs, id, b => ApplyEdit(b, data))
  }

  /** The edit keeps the id sequence (so unique ids stay unique), never
      undeletes, and keeps every record's lifecycle invariant. */
  lemma EditByIdLifecycle(xs: seq<Blog>, id: string, data: BlogData)
    ensures Ids(EditById(xs, id, data)) == Ids(xs)
    ensures UniqueIds(xs) ==> UniqueIds(EditById(xs, id, data))
    ensures forall i :: 0 <= i < |xs| ==> EditById(xs, id, data)[i].isDeleted == xs[i].isDeleted
    ensures (forall b :: b in xs ==> DeletionConsistent(b)) ==>
              forall b :: b in EditById(xs, id, data) ==> DeletionConsistent(b)
  {
    UpdateByIdKeepsIds(xs, id, b => ApplyEdit(b, data));
    var r := EditById(xs, id, data);
    if forall b :: b in xs ==> DeletionConsistent(b) {
      forall b | b in r ensures DeletionConsistent(b) {
        var i :| 0 <= i < |r| && r[i] == b;
        assert xs[i] in xs;
      }
    }
  }

  /** Editing twice with the same data is editing once. */
  lemma EditByIdIdempotent(xs: seq<Blog>, id: string, data: BlogData)
    ensures EditById(EditById(xs, id, data), id, data) == EditById(xs, id, data)
  {
  }

  /** The edit page's state: the route id, the store, and the record found at
      mount (`null` until one is found). */
  class EditView {
    const store: BlogStore
    const routeId: string
    var blog: Option<Blog>

    /** The record held in the page state is one with the route id. */
    ghost predicate Valid()
      reads this
    {
      blog.Some? ==> blog.value.id == routeId
    }

    constructor (store: BlogStore, routeId: string)
      ensures Valid()
      ensures this.store == store && this.routeId == routeId && blog == None
    {
      this.store := store;
      this.routeId := routeId;
      blog := None;
    }

    /** The mount effect: `getBlogs().find(b => b.id === id)`, kept only if found. */
    method Load(now: int)
      requires Valid()
      modifies this`blog, store
      ensures Valid()
      ensures store.stored == Some(Purge(old(store.Raw()), now))
      ensures var found := FindById(Purge(old(store.Raw()), now), routeId);
              blog == if found.Some? then found else old(blog)
    {
      var blogs := store.GetBlogs(now);
      var found := FindById(blogs, routeId);
      if found.Some? {
        blog := found;
      }
    }

    /** `submit(data)`: only reachable once a record was found (the page renders
        nothing before); reload at `now`, merge into the found record's id, save. */
    method Submit(data: BlogData, now: int)
      requires Valid() && blog.Some?
      modifies store
      ensures store.stored == Some(EditById(Purge(old(store.Raw()), now), routeId, data))
    {
      var blogs := store.GetBlogs(now);
      var updated := EditById(blogs, blog.value.id, data);
      store.SaveBlogs(updated);
    }
  }
}
