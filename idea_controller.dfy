/** The idea actions: create, details, the edit page, update and delete, on the
    ideas collection. Rendering and the JSON-or-HTML choice are left to the
    boundary; each action returns an outcome. */
module IdeaController {
  import opened Outcomes
  import opened ObjectIds
  import opened Accounts
  import opened IdeaModel

  /** `details`: the idea with that id, or not-found. */
  function Details(ideas: map<ObjectId, Idea>, id: ObjectId): (r: Outcome<Idea>)
    ensures r.Ok? <==> id in ideas
    ensures r.Ok? ==> r.value == ideas[id]
    ensures r.Fail? ==> r.failure == NotFound
  {
    if id !in ideas then Fail(NotFound) else Ok(ideas[id])
  }

  /** `editPage`: a plain `findById`, with no not-found branch of its own; the
      page is rendered with whatever it finds, possibly nothing. */
  function EditPage(ideas: map<ObjectId, Idea>, id: ObjectId): (r: Option<Idea>)
    ensures r.Some? <==> id in ideas
    ensures r.Some? ==> r.value == ideas[id]
  {
    if id in ideas then Some(ideas[id]) else None
  }

  /** `create`: builds an idea whose author is the session user (null when
      there is none) and saves it under the id the driver generated. A failed
      validation, or an `_id` already in use, ends in the catch block and
      stores nothing. */
  method Create(store: IdeaStore, title: string, description: string, category: string,
                user: Option<User>, newId: ObjectId, now: int) returns (r: Outcome<Idea>)
    requires store.Valid()
    modifies store
    ensures store.Valid()
    ensures user.None? ==> r == Fail(Error)
    ensures r.Ok? <==>
      && user.Some? && Present(title) && Present(description) && Present(category)
      && newId !in old(store.ideas)
    ensures r.Ok? ==>
      && r.value == Idea(title, description, category, user.value.id, [], now)
      && store.ideas == old(store.ideas)[newId := r.value]
      && Details(store.ideas, newId) == Ok(r.value)
    ensures r.Fail? ==> r.failure == Error && store.ideas == old(store.ideas)
  {
    var authorId := if user.Some? then Some(user.value.id) else None;
    var idea := Validate(Draft(title, description, category, authorId), now);
    if idea.None? || newId in store.ideas {
      return Fail(Error);
    }
    store.ideas := store.ideas[newId := idea.value];
    r := Ok(idea.value);
  }

  /** `update`: `findByIdAndUpdate` with the three form fields. Only title,
      description and category change; the validators are not re-run. A
      missing id changes nothing and still reports success, with no document. */
  method Update(store: IdeaStore, id: ObjectId, title: string, description: string, category: string)
    returns (r: Outcome<Option<Idea>>)
    requires store.Valid()
    modifies store
    ensures store.Valid()
    ensures id !in old(store.ideas) ==> store.ideas == old(store.ideas) && r == Ok(None)
    ensures id in old(store.ideas) ==>
      var updated := old(store.ideas)[id].(title := title, description := description, category := category);
      && store.ideas == old(store.ideas)[id := updated]
      && r == Ok(Some(updated))
      && updated.authorId == old(store.ideas)[id].authorId
      && updated.votes == old(store.ideas)[id].votes
      && updated.createdAt == old(store.ideas)[id].createdAt
  {
    if id !in store.ideas {
      return Ok(None);
    }
    var updated := store.ideas[id].(title := title, description := description, category := category);
    store.ideas := store.ideas[id := updated];
    r := Ok(Some(updated));
  }

  /** `delete`: `findByIdAndDelete`. The idea is gone, every other idea is
      untouched, and success is reported whether or not it existed. */
  method Delete(store: IdeaStore, id: ObjectId) returns (r: Outcome<()>)
    requires store.Valid()
    modifies store
    ensures store.Valid()
    ensures store.ideas == old(store.ideas) - {id}
    ensures Details(store.ideas, id) == Fail(NotFound)
    ensures r == Ok(())
  {
    store.ideas := store.ideas - {id};
    r := Ok(());
  }
}
