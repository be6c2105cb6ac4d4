/** The ownership guard: only the author of an idea may edit or delete it. */
module AuthorMiddleware {
  import opened Outcomes
  import opened ObjectIds
  import opened Accounts
  import opened IdeaModel

  /** Looks the idea up and lets the request through only when the string form
      of its `authorId` equals the string form of the session user's `_id`.
      A missing idea and somebody else's idea get the same answer. Because the
      string form determines the id, this is a comparison of id values. */
  function IsAuthor(ideas: map<ObjectId, Idea>, id: ObjectId, user: User): (d: Decision)
    ensures d == Allow <==> id in ideas && ideas[id].authorId == user.id
    ensures d.Deny? ==> d == Deny(Forbidden)
  {
    if id !in ideas then
      Deny(Forbidden)
    else
      var author := ideas[id].authorId;
      ToStringInjective(author, user.id);
      if ToString(author) != ToString(user.id) then Deny(Forbidden) else Allow
  }
}
