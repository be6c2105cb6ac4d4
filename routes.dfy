/** The idea and vote routes: which middlewares guard which action, in which
    order, and the dispatch that runs an action once its guards have let the
    request through. */
module Routes {
  import opened Outcomes
  import opened ObjectIds
  import opened Accounts
  import opened IdeaModel
  import opened AuthMiddleware
  import opened AuthorMiddleware
  import IdeaController
  import VoteController

  /** The requests the routers accept; `id` is the `:id` path parameter. */
  datatype Request =
    | ListIdeas                                                          // GET  /ideas/
    | CreatePage                                                         // GET  /ideas/create
    | CreateIdea(title: string, description: string, category: string)   // POST /ideas/create
    | ShowIdea(id: ObjectId)                                             // GET  /ideas/:id
    | EditPage(id: ObjectId)                                             // GET  /ideas/:id/edit
    | UpdateIdea(id: ObjectId, title: string, description: string, category: string) // POST /ideas/:id/edit
    | DeleteIdea(id: ObjectId)                                           // POST /ideas/:id/delete
    | Vote(id: ObjectId)                                                 // POST /votes/:id

  /** A middleware in a route's chain; the author guard reads the idea named
      by the path. */
  datatype Guard = LoggedIn | Author(id: ObjectId)

  /** The route tables. No chain is longer than two, and an author guard
      always comes after a login guard. */
  function Guards(req: Request): (gs: seq<Guard>)
    ensures |gs| <= 2
    ensures forall i | 0 <= i < |gs| && gs[i].Author? :: 0 < i && gs[0] == LoggedIn
  {
    match req
    case ListIdeas => []
    case CreatePage => [LoggedIn]
    case CreateIdea(_, _, _) => [LoggedIn]
    case ShowIdea(_) => []
    case EditPage(id) => [LoggedIn, Author(id)]
    case UpdateIdea(id, _, _, _) => [LoggedIn, Author(id)]
    case DeleteIdea(id) => [LoggedIn, Author(id)]
    case Vote(_) => [LoggedIn]
  }

  /** One middleware. The author guard first looks the idea up; a missing
      idea is refused before the user is read. For an existing idea it reads
      `req.session.user._id` without a check, so without a session user it
      throws. */
  function RunGuard(g: Guard, user: Option<User>, ideas: map<ObjectId, Idea>): (d: Decision)
    ensures g.Author? && g.id !in ideas ==> d == Deny(Forbidden)
    ensures g.Author? && g.id in ideas && user.None? ==> d == Deny(Error)
    ensures g.Author? && user.Some? ==>
      (d == Allow <==> g.id in ideas && ideas[g.id].authorId == user.value.id)
    ensures g.LoggedIn? ==> (d == Allow <==> user.Some?)
  {
    match g
    case LoggedIn => IsLoggedIn(user)
    case Author(id) =>
      if id !in ideas then Deny(Forbidden)
      else if user.None? then Deny(Error)
      else IsAuthor(ideas, id, user.value)
  }

  /** Express runs a chain in order; the first middleware that answers the
      request stops it. */
  function RunGuards(gs: seq<Guard>, user: Option<User>, ideas: map<ObjectId, Idea>): Decision {
    if gs == [] then Allow
    else
      var d := RunGuard(gs[0], user, ideas);
      if d.Deny? then d else RunGuards(gs[1..], user, ideas)
  }

  /** A chain of one or two middlewares, unrolled. */
  lemma ShortChain(gs: seq<Guard>, user: Option<User>, ideas: map<ObjectId, Idea>)
    requires |gs| <= 2
    ensures |gs| == 1 ==> RunGuards(gs, user, ideas) == RunGuard(gs[0], user, ideas)
    ensures |gs| == 2 ==>
      var d := RunGuard(gs[0], user, ideas);
      RunGuards(gs, user, ideas) == if d.Deny? then d else RunGuard(gs[1], user, ideas)
  {
  }

  /** Whether a request reaches its controller action. Listing and details are
      public; the create page, create and voting need a session user; the edit
      page, update and delete need a session user who is the idea's author.
      Anonymous requests are refused as unauthenticated, logged-in ones as
      forbidden, and since login is checked first the author guard never runs
      without a session user. */
  function Authorize(req: Request, user: Option<User>, ideas: map<ObjectId, Idea>): (d: Decision)
    ensures req.ListIdeas? || req.ShowIdea? ==> d == Allow
    ensures req.CreatePage? || req.CreateIdea? || req.Vote? ==> (d == Allow <==> user.Some?)
    ensures req.EditPage? || req.UpdateIdea? || req.DeleteIdea? ==>
      (d == Allow <==> user.Some? && req.id in ideas && ideas[req.id].authorId == user.value.id)
    ensures d.Deny? && user.None? ==> d.failure == Unauthenticated
    ensures d.Deny? && user.Some? ==> d.failure == Forbidden
  {
    ShortChain(Guards(req), user, ideas);
    RunGuards(Guards(req), user, ideas)
  }

  /** Requests that change the ideas collection. */
  predicate Mutates(req: Request) {
    req.CreateIdea? || req.UpdateIdea? || req.DeleteIdea? || req.Vote?
  }

  /** An anonymous request never reaches an action that changes the store. */
  lemma AnonymousCannotMutate(req: Request, ideas: map<ObjectId, Idea>)
    requires Mutates(req)
    ensures Authorize(req, None, ideas) == Deny(Unauthenticated)
  {
  }

  /** A logged-in user who is not the author is refused update and delete, and
      gets the same answer as for an idea that does not exist. */
  lemma NonAuthorIndistinguishableFromMissing(req: Request, user: User, ideas: map<ObjectId, Idea>,
                                              missing: map<ObjectId, Idea>)
    requires req.EditPage? || req.UpdateIdea? || req.DeleteIdea?
    requires req.id in ideas && ideas[req.id].authorId != user.id
    requires req.id !in missing
    ensures Authorize(req, Some(user), ideas) == Authorize(req, Some(user), missing) == Deny(Forbidden)
  {
  }

  /** Voting has no ownership check: any logged-in user, the author included,
      may vote on an idea. */
  lemma AnyUserMayVote(id: ObjectId, user: User, ideas: map<ObjectId, Idea>)
    ensures Authorize(Vote(id), Some(user), ideas) == Allow
  {
  }

  /** The edit page is reached only for an idea that exists, so its lookup
      always finds one. */
  lemma EditPageFindsIdea(id: ObjectId, user: Option<User>, ideas: map<ObjectId, Idea>)
    requires Authorize(EditPage(id), user, ideas) == Allow
    ensures IdeaController.EditPage(ideas, id) == Some(ideas[id])
  {
  }

  /** What an action answers with. */
  datatype Reply =
    | IdeaList(ideas: map<ObjectId, Idea>)
    | CreateForm
    | Created(idea: Idea)
    | Shown(idea: Idea)
    | EditForm(found: Option<Idea>)
    | Updated(updated: Option<Idea>)
    | Deleted
    | Votes(count: nat)

  /** One request through its route: the guards, then the action. `newId` and
      `now` are the id the driver would generate and the clock, used by
      create. A refused request changes nothing; a vote toggles the session
      user's vote on the idea named by the path, unless that idea is missing
      or no longer passes `save`'s required-field check. */
  method Handle(store: IdeaStore, session: Session, req: Request, newId: ObjectId, now: int)
    returns (r: Outcome<Reply>)
    requires store.Valid()
    modifies store
    ensures store.Valid()
    ensures var d := Authorize(req, session.user, old(store.ideas));
      d.Deny? ==> r == Fail(d.failure) && store.ideas == old(store.ideas)
    ensures !Mutates(req) ==> store.ideas == old(store.ideas)
    ensures req.Vote? && session.user.Some? ==>
      if req.id !in old(store.ideas) then
        store.ideas == old(store.ideas) && r == Fail(NotFound)
      else if !Saveable(old(store.ideas)[req.id]) then
        store.ideas == old(store.ideas) && r == Fail(Error)
      else
        var idea := old(store.ideas)[req.id];
        var voted := idea.(votes := VoteController.Toggle(idea.votes, session.user.value.id));
        store.ideas == old(store.ideas)[req.id := voted] && r == Ok(Votes(voted.VoteCount()))
  {
    var d := Authorize(req, session.user, store.ideas);
    if d.Deny? {
      return Fail(d.failure);
    }
    match req {
      case ListIdeas =>
        r := Ok(IdeaList(store.ideas));
      case CreatePage =>
        r := Ok(CreateForm);
      case CreateIdea(title, description, category) =>
        var o := IdeaController.Create(store, title, description, category, session.user, newId, now);
        r := if o.Ok? then Ok(Created(o.value)) else Fail(o.failure);
      case ShowIdea(id) =>
        var o := IdeaController.Details(store.ideas, id);
        r := if o.Ok? then Ok(Shown(o.value)) else Fail(o.failure);
      case EditPage(id) =>
        r := Ok(EditForm(IdeaController.EditPage(store.ideas, id)));
      case UpdateIdea(id, title, description, category) =>
        var o := IdeaController.Update(store, id, title, description, category);
        r := Ok(Updated(o.value));
      case DeleteIdea(id) =>
        var _ := IdeaController.Delete(store, id);
        r := Ok(Deleted);
      case Vote(id) =>
        var o := VoteController.ToggleVote(store, id, session.user.value.id);
        r := if o.Ok? then Ok(Votes(o.value)) else Fail(o.failure);
    }
  }
}
