/** The create page's submit handler (src/pages/CreateBlog.tsx): load (and so
    purge), append a new record built from the form data, save. */
module CreateBlog {
  import opened Wrappers
  import opened BlogTypes
  import opened Storage

  /** `newBlog`: the submitted data with a fresh id, the creation time, and
      not deleted. */
  function NewBlog(data: BlogData, id: string, now: int): (b: Blog)
    ensures ContentOf(b) == data
    ensures b.id == id && b.createdAt == now
    ensures !b.isDeleted && b.deletedAt.None?
  {
    Blog(id, data.title, data.description, data.category, data.author, data.image,
         data.publishDate, data.status, now, false, None)
  }

  /** A new record is live and consistent, so every later read keeps it. */
  lemma NewBlogSurvives(data: BlogData, id: string, now: int, later: int)
    ensures DeletionConsistent(NewBlog(data, id, now))
    ensures Retained(NewBlog(data, id, now), later)
  {
  }

  /** The collection `submit` saves: the purged list, untouched, with the new
      record appended; every record in it passes the purge test at `now`. */
  function Created(xs: seq<Blog>, data: BlogData, id: string, now: int): (r: seq<Blog>)
    ensures |r| == |Purge(xs, now)| + 1
    ensures r[|Purge(xs, now)|] == NewBlog(data, id, now)
    ensures r[..|Purge(xs, now)|] == Purge(xs, now)
    ensures forall b :: b in r ==> Retained(b, now)
  {
    var p := Purge(xs, now);
    assert (p + [NewBlog(data, id, now)])[..|p|] == p;
    p + [NewBlog(data, id, now)]
  }

  /** Every saved record is the new one or a stored record the purge at `now`
      keeps. With a fresh id, id uniqueness is preserved. */
  lemma CreatedCollection(xs: seq<Blog>, data: BlogData, id: string, now: int)
    ensures forall b :: b in Created(xs, data, id, now) ==> b == NewBlog(data, id, now) || (b in xs && Retained(b, now))
    ensures UniqueIds(xs) && FreshId(xs, id) ==> UniqueIds(Created(xs, data, id, now))
  {
    var p := Purge(xs, now);
    var r := Created(xs, data, id, now);
    if UniqueIds(xs) && FreshId(xs, id) {
      PurgeKeepsUniqueIds(xs, now);
      forall i, j | 0 <= i < j < |r| ensures r[i].id != r[j].id {
        if j == |p| {
          assert r[i] == p[i] && p[i] in xs;
        } else {
          assert r[i] == p[i] && r[j] == p[j];
        }
      }
    }
  }

  /** `submit(data)`: `getBlogs()` at `now`, push the new record, `saveBlogs`. */
  method Submit(store: BlogStore, data: BlogData, newId: string, now: int)
    modifies store
    ensures store.stored == Some(Created(old(store.Raw()), data, newId, now))
  {
    var blogs := store.GetBlogs(now);
    var newBlog := NewBlog(data, newId, now);
    blogs := blogs + [newBlog];
    store.SaveBlogs(blogs);
  }
}
