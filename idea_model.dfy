/** The Idea schema: its required fields, the `votes` list, `createdAt`, the
    derived `voteCount`, and the collection of stored ideas. */
module IdeaModel {
  import opened Outcomes
  import opened ObjectIds

  /** A stored idea document. `authorId` is an id, never null: a document
      without an author does not pass validation and is never stored. */
  datatype Idea = Idea(
    title: string,
    description: string,
    category: string,
    authorId: ObjectId,
    votes: seq<ObjectId>,
    createdAt: int)
  {
    /** The `voteCount` virtual: derived from `votes`, never stored. */
    function VoteCount(): nat {
      |votes|
    }
  }

  /** An idea as `toJSON`/`toObject` present it: the stored fields plus the
      `voteCount` virtual. */
  datatype IdeaJson = IdeaJson(
    id: ObjectId,
    title: string,
    description: string,
    category: string,
    authorId: ObjectId,
    votes: seq<ObjectId>,
    createdAt: int,
    voteCount: nat)

  function ToJson(id: ObjectId, idea: Idea): (j: IdeaJson)
    ensures j.voteCount == |j.votes|
    ensures j.votes == idea.votes && j.id == id && j.authorId == idea.authorId
    ensures j.title == idea.title && j.description == idea.description
    ensures j.category == idea.category && j.createdAt == idea.createdAt
  {
    IdeaJson(id, idea.title, idea.description, idea.category, idea.authorId,
             idea.votes, idea.createdAt, idea.VoteCount())
  }

  /** An unsaved `new Idea({ ... })`: its author may still be null. */
  datatype Draft = Draft(
    title: string,
    description: string,
    category: string,
    authorId: Option<ObjectId>)

  /** Mongoose's `required` check on a String path: absent and empty both fail. */
  predicate Present(s: string) {
    s != ""
  }

  /** Validation on `save`: the four required fields must be present. A valid
      draft becomes a document with no votes, created at `now` (the default
      `Date.now`). */
  function Validate(d: Draft, now: int): (r: Option<Idea>)
    ensures r.Some? <==>
      Present(d.title) && Present(d.description) && Present(d.category) && d.authorId.Some?
    ensures r.Some? ==>
      && r.value.title == d.title && r.value.description == d.description
      && r.value.category == d.category && Some(r.value.authorId) == d.authorId
      && r.value.votes == [] && r.value.VoteCount() == 0 && r.value.createdAt == now
  {
    if Present(d.title) && Present(d.description) && Present(d.category) && d.authorId.Some? then
      Some(Idea(d.title, d.description, d.category, d.authorId.value, [], now))
    else
      None
  }

  /** What `save` checks of a stored document: the required strings are
      present (the author always is). `findByIdAndUpdate` does not check this,
      so a stored idea can fail it. */
  predicate Saveable(idea: Idea) {
    Present(idea.title) && Present(idea.description) && Present(idea.category)
  }

  predicate NoDuplicates(s: seq<ObjectId>) {
    forall i, j | 0 <= i < j < |s| :: s[i] != s[j]
  }

  /** The ideas collection, keyed by `_id`. */
  class IdeaStore {
    var ideas: map<ObjectId, Idea>

    /** No idea lists the same voter twice: every list starts empty and the
        vote toggle keeps it free of duplicates. */
    ghost predicate Valid()
      reads this
    {
      forall id | id in ideas :: NoDuplicates(ideas[id].votes)
    }

    constructor ()
      ensures Valid() && ideas == map[]
    {
      ideas := map[];
    }
  }
}
