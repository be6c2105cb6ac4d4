/** The vote toggle: the idea's `votes` list gains the user when the user is not
    in it, and loses every occurrence of the user when the user is. */
module VoteController {
  import opened Outcomes
  import opened ObjectIds
  import opened IdeaModel

  /** `votes.pull(u)`: every occurrence of `u` removed, the rest in order. */
  function Pull(votes: seq<ObjectId>, u: ObjectId): (r: seq<ObjectId>)
    ensures u !in r
    ensures forall w :: w in r <==> w in votes && w != u
    ensures multiset(r) == multiset(votes)[u := 0]
    ensures |r| == |votes| - multiset(votes)[u]
    ensures u !in votes ==> r == votes
  {
    if votes == [] then []
    else
      assert votes == [votes[0]] + votes[1..];
      if votes[0] == u then Pull(votes[1..], u)
      else [votes[0]] + Pull(votes[1..], u)
  }

  /** The list `toggleVote` saves: `pull` when `includes` finds the user,
      `push` otherwise. */
  function Toggle(votes: seq<ObjectId>, u: ObjectId): (r: seq<ObjectId>)
    ensures u in r <==> u !in votes
    ensures forall w | w != u :: multiset(r)[w] == multiset(votes)[w]
    ensures u !in votes ==> r == votes + [u] && |r| == |votes| + 1
    ensures u in votes ==> multiset(r)[u] == 0 && |r| == |votes| - multiset(votes)[u]
  {
    if u in votes then Pull(votes, u) else votes + [u]
  }

  /** Dropping an appended `u` from a list without `u` gives the list back. */
  lemma {:induction false} PullAppended(votes: seq<ObjectId>, u: ObjectId)
    requires u !in votes
    ensures Pull(votes + [u], u) == votes
  {
    if votes != [] {
      assert (votes + [u])[1..] == votes[1..] + [u];
      PullAppended(votes[1..], u);
    }
  }

  /** Removing a voter from a list without duplicates leaves none. */
  lemma {:induction false} PullKeepsNoDuplicates(votes: seq<ObjectId>, u: ObjectId)
    requires NoDuplicates(votes)
    ensures NoDuplicates(Pull(votes, u))
  {
    if votes != [] {
      PullKeepsNoDuplicates(votes[1..], u);
      if votes[0] != u {
        var r := [votes[0]] + Pull(votes[1..], u);
        assert votes[0] !in votes[1..];
        forall i, j | 0 <= i < j < |r| ensures r[i] != r[j] {
          if i == 0 {
            assert r[j] in Pull(votes[1..], u);
          }
        }
      }
    }
  }

  /** Toggling only changes the toggling user's entries: with that user taken
      out, the list is the same as before, other voters keeping their
      multiplicity and their relative order. */
  lemma ToggleOnlyChangesVoter(votes: seq<ObjectId>, u: ObjectId)
    ensures Pull(Toggle(votes, u), u) == Pull(votes, u)
  {
    if u !in votes {
      PullAppended(votes, u);
    }
  }

  /** A list without duplicates stays without duplicates. */
  lemma ToggleKeepsNoDuplicates(votes: seq<ObjectId>, u: ObjectId)
    requires NoDuplicates(votes)
    ensures NoDuplicates(Toggle(votes, u))
  {
    if u in votes {
      PullKeepsNoDuplicates(votes, u);
    }
  }

  /** Two toggles by a user who had not voted give back the very same list. */
  lemma ToggleTwiceAbsent(votes: seq<ObjectId>, u: ObjectId)
    requires u !in votes
    ensures Toggle(Toggle(votes, u), u) == votes
  {
    PullAppended(votes, u);
  }

  /** Two toggles by a user who had voted once restore the user's membership
      and the count; the user's entry moves to the end. */
  lemma ToggleTwicePresent(votes: seq<ObjectId>, u: ObjectId)
    requires multiset(votes)[u] == 1
    ensures Toggle(Toggle(votes, u), u) == Pull(votes, u) + [u]
    ensures |Toggle(Toggle(votes, u), u)| == |votes|
  {
  }

  /** On a list without duplicates, as every stored idea has, two toggles by
      any user restore that user's membership and the count. */
  lemma ToggleTwiceRestores(votes: seq<ObjectId>, u: ObjectId)
    requires NoDuplicates(votes)
    ensures (u in Toggle(Toggle(votes, u), u)) == (u in votes)
    ensures |Toggle(Toggle(votes, u), u)| == |votes|
  {
    if u in votes {
      NoDuplicatesCountsOnce(votes, u);
      ToggleTwicePresent(votes, u);
    } else {
      ToggleTwiceAbsent(votes, u);
    }
  }

  /** In a list without duplicates a member occurs exactly once. */
  lemma {:induction false} NoDuplicatesCountsOnce(votes: seq<ObjectId>, u: ObjectId)
    requires NoDuplicates(votes) && u in votes
    ensures multiset(votes)[u] == 1
  {
    assert votes == [votes[0]] + votes[1..];
    if votes[0] == u {
      assert u !in votes[1..];
    } else {
      NoDuplicatesCountsOnce(votes[1..], u);
    }
  }

  /** `n` toggles in a row by the same user. */
  function Toggles(votes: seq<ObjectId>, u: ObjectId, n: nat): seq<ObjectId> {
    if n == 0 then votes else Toggle(Toggles(votes, u, n - 1), u)
  }

  /** After an even number of toggles the user's membership is what it was,
      after an odd number it is flipped. */
  lemma {:induction false} TogglesParity(votes: seq<ObjectId>, u: ObjectId, k: nat)
    ensures (u in Toggles(votes, u, 2 * k)) == (u in votes)
    ensures (u in Toggles(votes, u, 2 * k + 1)) == (u !in votes)
  {
    var even := Toggles(votes, u, 2 * k);
    if k > 0 {
      var odd := Toggles(votes, u, 2 * k - 1);
      TogglesParity(votes, u, k - 1);
      assert 2 * (k - 1) + 1 == 2 * k - 1;
      assert even == Toggle(odd, u);
      assert (u in even) == (u !in odd);
    } else {
      assert even == votes;
    }
    var next := Toggles(votes, u, 2 * k + 1);
    assert next == Toggle(even, u);
    assert (u in next) == (u !in even);
  }

  /** However many times a user toggles, no other voter's entries change. */
  lemma {:induction false} TogglesKeepOthers(votes: seq<ObjectId>, u: ObjectId, n: nat, w: ObjectId)
    requires w != u
    ensures multiset(Toggles(votes, u, n))[w] == multiset(votes)[w]
  {
    if n > 0 {
      TogglesKeepOthers(votes, u, n - 1, w);
    }
  }

  /** `VoteController.toggleVote`: a missing idea gives not-found and changes
      nothing. Otherwise the list is toggled and the whole document saved;
      `save` re-checks the required fields, so an idea whose title,
      description or category an update emptied ends in the catch block and
      nothing changes. A successful save changes only that idea's `votes`, to
      `Toggle` of the old list, and the answer is the new length of the list. */
  method ToggleVote(store: IdeaStore, ideaId: ObjectId, userId: ObjectId) returns (r: Outcome<nat>)
    requires store.Valid()
    modifies store
    ensures store.Valid()
    ensures ideaId !in old(store.ideas) ==> r == Fail(NotFound) && store.ideas == old(store.ideas)
    ensures ideaId in old(store.ideas) && !Saveable(old(store.ideas)[ideaId]) ==>
      r == Fail(Error) && store.ideas == old(store.ideas)
    ensures ideaId in old(store.ideas) && Saveable(old(store.ideas)[ideaId]) ==>
      var idea := old(store.ideas)[ideaId];
      && store.ideas == old(store.ideas)[ideaId := idea.(votes := Toggle(idea.votes, userId))]
      && r == Ok(store.ideas[ideaId].VoteCount())
  {
    if ideaId !in store.ideas {
      return Fail(NotFound);
    }
    var idea := store.ideas[ideaId];
    var alreadyVoted := userId in idea.votes;
    if alreadyVoted {
      idea := idea.(votes := Pull(idea.votes, userId));
    } else {
      idea := idea.(votes := idea.votes + [userId]);
    }
    if !Saveable(idea) {
      return Fail(Error);
    }
    ToggleKeepsNoDuplicates(store.ideas[ideaId].votes, userId);
    store.ideas := store.ideas[ideaId := idea];
    r := Ok(|idea.votes|);
  }
}
