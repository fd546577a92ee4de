/** The blog table's data-access operations. */
module BlogData {
  import opened Common
  import opened Errors
  import opened BlogModel
  import opened Db

  function BlogIdNotFound(id: Id): (msg: string) {
    "Blog with id " + Repr(id) + " not found"
  }

  /** The row a new post is stored as: the input's fields, and the two clock
      readings `created` and `updated`, taken one after the other, as its
      timestamps. */
  function NewBlog(c: BlogCreate, id: Id, created: Time, updated: Time): (b: Blog)
    ensures b.id == id && b.userId == c.userId && b.title == c.title && b.content == c.content
    ensures b.timeCreated == created && b.timeUpdated == updated
    ensures ValidBlogCreate(c) ==> ValidBlog(b)
  {
    Blog(id, c.userId, c.title, c.content, created, updated)
  }

  /** The row an update leaves: the supplied title and content, a fresh
      `time_updated`; id, owner and `time_created` kept. */
  function UpdatedBlog(b: Blog, upd: BlogUpdate, now: Time): (v: Blog)
    ensures v.id == b.id && v.userId == b.userId && v.timeCreated == b.timeCreated && v.timeUpdated == now
    ensures v.title == if Supplied(upd.title) then upd.title.value else b.title
    ensures v.content == if Supplied(upd.content) then upd.content.value else b.content
    ensures ValidBlog(b) && ValidBlogUpdate(upd) ==> ValidBlog(v)
  {
    Blog(b.id, b.userId,
         if Supplied(upd.title) then upd.title.value else b.title,
         if Supplied(upd.content) then upd.content.value else b.content,
         b.timeCreated, now)
  }

  /** The posts of `s` written by `userId`, in the order of `s`. */
  function OwnedBy(s: seq<Blog>, userId: Id): (r: seq<Blog>)
    ensures |r| <= |s|
    ensures forall i :: 0 <= i < |r| ==> r[i] in s && r[i].userId == userId
    ensures forall b :: b in s && b.userId == userId ==> b in r
    ensures (forall i, j :: 0 <= i < j < |s| ==> s[i] != s[j]) ==> (forall i, j :: 0 <= i < j < |r| ==> r[i] != r[j])
  {
    if s == [] then []
    else if s[0].userId == userId then [s[0]] + OwnedBy(s[1..], userId)
    else OwnedBy(s[1..], userId)
  }

  /** `get_blog_by_id` */
  method GetBlogById(db: Database, id: Id) returns (r: Result<Blog>)
    requires db.Valid()
    ensures r.Ok? <==> id in db.blogs
    ensures r.Ok? ==> r.value.id == id && r.value in db.blogs.Values
    ensures r.Err? ==> r.error == Missing(BlogIdNotFound(id))
  {
    if id in db.blogs {
      r := Ok(db.blogs[id]);
    } else {
      r := Err(Missing(BlogIdNotFound(id)));
    }
  }

  /** `get_blogs_by_user_id`: every post of that user, each once; an empty
      list, not an error, when there is none. */
  method GetBlogsByUserId(db: Database, userId: Id) returns (r: seq<Blog>)
    requires db.Valid()
    ensures forall i :: 0 <= i < |r| ==> r[i].userId == userId && r[i].id in db.blogs && db.blogs[r[i].id] == r[i]
    ensures forall k :: k in db.blogs && db.blogs[k].userId == userId ==> db.blogs[k] in r
    ensures forall i, j :: 0 <= i < j < |r| ==> r[i] != r[j]
    ensures r == [] <==> forall k :: k in db.blogs ==> db.blogs[k].userId != userId
  {
    var all := Rows(db.blogs);
    r := OwnedBy(all, userId);
    if r != [] {
      assert r[0].id in db.blogs && db.blogs[r[0].id].userId == userId;
    }
  }

  /** `get_all_blogs` */
  method GetAllBlogs(db: Database) returns (r: seq<Blog>)
    requires db.Valid()
    ensures Lists(r, db.blogs)
    ensures forall i :: 0 <= i < |r| ==> r[i].id in db.blogs && db.blogs[r[i].id] == r[i]
  {
    r := Rows(db.blogs);
  }

  /** `create_blog`: always stores one new post under the fresh id. The
      owner id is not checked against the user table. */
  method CreateBlog(db: Database, blog: BlogCreate, freshId: Id, created: Time, updated: Time) returns (r: Blog)
    requires db.Valid() && ValidBlogCreate(blog) && freshId !in db.blogs
    modifies db
    ensures db.Valid() && db.users == old(db.users) && db.roles == old(db.roles)
    ensures r == NewBlog(blog, freshId, created, updated) && db.blogs == old(db.blogs)[freshId := r]
  {
    r := NewBlog(blog, freshId, created, updated);
    db.blogs := db.blogs[freshId := r];
  }

  /** `update_blog`: an unknown id is Missing; otherwise only the supplied
      title and content change. */
  method UpdateBlog(db: Database, blog: BlogUpdate, now: Time) returns (r: Result<Blog>)
    requires db.Valid() && ValidBlogUpdate(blog)
    modifies db
    ensures db.Valid() && db.users == old(db.users) && db.roles == old(db.roles)
    ensures blog.id !in old(db.blogs) ==> r == Err(Missing(BlogIdNotFound(blog.id))) && db.blogs == old(db.blogs)
    ensures blog.id in old(db.blogs) ==>
              r == Ok(UpdatedBlog(old(db.blogs)[blog.id], blog, now)) && db.blogs == old(db.blogs)[blog.id := r.value]
  {
    var found := GetBlogById(db, blog.id);
    if found.Err? {
      r := Err(Missing(BlogIdNotFound(blog.id)));
      return;
    }
    var b := found.value;
    if Supplied(blog.title) {
      b := b.(title := blog.title.value);
    }
    if Supplied(blog.content) {
      b := b.(content := blog.content.value);
    }
    b := b.(timeUpdated := now);
    db.blogs := db.blogs[blog.id := b];
    r := Ok(b);
  }

  /** `delete_blog`: removes exactly the post with `blog.id`. */
  method DeleteBlog(db: Database, blog: Blog) returns (r: Result<()>)
    requires db.Valid()
    modifies db
    ensures db.Valid() && db.users == old(db.users) && db.roles == old(db.roles)
    ensures blog.id !in old(db.blogs) ==> r == Err(Missing(BlogIdNotFound(blog.id))) && db.blogs == old(db.blogs)
    ensures blog.id in old(db.blogs) ==> r == Ok(()) && db.blogs == old(db.blogs) - {blog.id}
  {
    var found := GetBlogById(db, blog.id);
    if found.Err? {
      r := Err(found.error);
      return;
    }
    db.blogs := db.blogs - {blog.id};
    r := Ok(());
  }
}
