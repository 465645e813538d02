/** One record's whole lifecycle, composed from the page handlers over a fresh
    profile's store: created (live), soft-deleted (hidden from the list but still
    stored), then purged by the first read a week or more later. */
module Lifecycle {
  import opened Wrappers
  import opened BlogTypes
  import opened Storage
  import opened Blogs
  import CreateBlog

  method CreateDeletePurge(data: BlogData, id: string, t: int, elapsed: int)
    returns (afterCreate: seq<Blog>, listed: seq<Blog>, afterDelete: seq<Blog>, later: seq<Blog>)
    ensures afterCreate == [CreateBlog.NewBlog(data, id, t)]
    ensures listed == []
    ensures |afterDelete| == 1 && afterDelete[0].isDeleted && afterDelete[0].deletedAt == Some(t)
    ensures ContentOf(afterDelete[0]) == data && afterDelete[0].id == id
    ensures later == [] <==> elapsed >= PurgeDays * DayMs
  {
    var store := new BlogStore(None);
    CreateBlog.Submit(store, data, id, t);
    afterCreate := store.GetBlogs(t);
    var view := new BlogsView(store);
    view.Load(t);
    view.SoftDelete(id, t);
    listed := view.Filtered();
    afterDelete := store.GetBlogs(t);
    later := store.GetBlogs(t + elapsed);
  }
}
