/** The blog service: pass-throughs of the data layer, and delete as a
    look-up followed by a delete. */
module BlogService {
  import opened Common
  import opened Errors
  import opened BlogModel
  import opened Db
  import BlogData

  /** `create_blog`: the data layer's row, unchanged. */
  method CreateBlog(db: Database, newBlog: BlogCreate, freshId: Id, created: Time, updated: Time) returns (r: BlogInDB)
    requires db.Valid() && ValidBlogCreate(newBlog) && freshId !in db.blogs
    modifies db
    ensures db.Valid() && db.users == old(db.users) && db.roles == old(db.roles)
    ensures r == BlogData.NewBlog(newBlog, freshId, created, updated) && db.blogs == old(db.blogs)[freshId := r]
  {
    r := BlogData.CreateBlog(db, newBlog, freshId, created, updated);
  }

  /** `get_blog_by_id` */
  method GetBlogById(db: Database, id: Id) returns (r: Result<BlogInDB>)
    requires db.Valid()
    ensures r.Ok? <==> id in db.blogs
    ensures r.Ok? ==> r.value == db.blogs[id] && ValidBlog(r.value)
    ensures r.Err? ==> r.error == Missing(BlogData.BlogIdNotFound(id))
  {
    r := BlogData.GetBlogById(db, id);
  }

  /** `get_all_blogs` */
  method GetAllBlogs(db: Database) returns (r: seq<BlogInDB>)
    requires db.Valid()
    ensures Lists(r, db.blogs)
    ensures forall i :: 0 <= i < |r| ==> ValidBlog(r[i])
  {
    r := BlogData.GetAllBlogs(db);
  }

  /** `update_blog`: Missing for an unknown id, from the data layer. */
  method UpdateBlog(db: Database, updated: BlogUpdate, now: Time) returns (r: Result<BlogInDB>)
    requires db.Valid() && ValidBlogUpdate(updated)
    modifies db
    ensures db.Valid() && db.users == old(db.users) && db.roles == old(db.roles)
    ensures updated.id !in old(db.blogs) ==>
              r == Err(Missing(BlogData.BlogIdNotFound(updated.id))) && db.blogs == old(db.blogs)
    ensures updated.id in old(db.blogs) ==>
              && r == Ok(BlogData.UpdatedBlog(old(db.blogs)[updated.id], updated, now))
              && db.blogs == old(db.blogs)[updated.id := r.value]
  {
    r := BlogData.UpdateBlog(db, updated, now);
  }

  /** `delete_blog`: look the post up, then delete it; an unknown id is
      Missing from the look-up and nothing is removed. */
  method DeleteBlog(db: Database, id: Id) returns (r: Result<()>)
    requires db.Valid()
    modifies db
    ensures db.Valid() && db.users == old(db.users) && db.roles == old(db.roles)
    ensures id !in old(db.blogs) ==> r == Err(Missing(BlogData.BlogIdNotFound(id))) && db.blogs == old(db.blogs)
    ensures id in old(db.blogs) ==> r == Ok(()) && db.blogs == old(db.blogs) - {id}
  {
    var found := BlogData.GetBlogById(db, id);
    if found.Err? {
      r := Err(found.error);
      return;
    }
    r := BlogData.DeleteBlog(db, found.value);
  }

  /** Deleting a post and then looking it up: the look-up is Missing. */
  method DeleteThenGetBlog(db: Database, id: Id) returns (deleted: Result<()>, after: Result<BlogInDB>)
    requires db.Valid() && id in db.blogs
    modifies db
    ensures deleted == Ok(())
    ensures after == Err(Missing(BlogData.BlogIdNotFound(id)))
  {
    deleted := DeleteBlog(db, id);
    after := GetBlogById(db, id);
  }
}
