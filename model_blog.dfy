/** The blog records exchanged between the layers, and the field bounds the
    validation layer enforces on them. */
module BlogModel {
  import opened Common

  const TitleMinLength := 2
  const TitleMaxLength := 100
  const ContentMinLength := 2

  predicate ValidTitle(s: string) {
    TitleMinLength <= |s| <= TitleMaxLength
  }

  predicate ValidContent(s: string) {
    |s| >= ContentMinLength
  }

  /** A stored blog post. */
  datatype Blog = Blog(id: Id, userId: Id, title: string, content: string, timeCreated: Time, timeUpdated: Time)

  /** `BlogInDB` and `BlogOut` add no field to `Blog`. */
  type BlogInDB = Blog
  type BlogOut = Blog

  predicate ValidBlog(b: Blog) {
    ValidTitle(b.title) && ValidContent(b.content)
  }

  /** The input of a new post. */
  datatype BlogCreate = BlogCreate(userId: Id, title: string, content: string)

  predicate ValidBlogCreate(c: BlogCreate) {
    ValidTitle(c.title) && ValidContent(c.content)
  }

  /** A partial update: an absent field is left as it is. */
  datatype BlogUpdate = BlogUpdate(id: Id, title: Option<string>, content: Option<string>)

  /** The bounds apply to a field only when it is present. A field the
      validation layer accepts is one the data layer applies: a present
      title or content is never the empty (falsy) string. */
  predicate ValidBlogUpdate(u: BlogUpdate): (ok: bool)
    ensures ok ==> (u.title.Some? <==> Supplied(u.title))
    ensures ok ==> (u.content.Some? <==> Supplied(u.content))
  {
    && (u.title.Some? ==> ValidTitle(u.title.value))
    && (u.content.Some? ==> ValidContent(u.content.value))
  }

  /** A post titled "a" with content "b" is refused. */
  lemma OneLetterPostRejected(userId: Id)
    ensures !ValidBlogCreate(BlogCreate(userId, "a", "b"))
  {
  }
}
