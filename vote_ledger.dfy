/** The vote ledger of one definition: two voter lists that a vote toggles
    and keeps mutually exclusive. */
module VoteLedger {
  import opened Common
  import opened EntrySchema

  /** `MongooseArray.pull(u)`: every occurrence of `u` goes, the rest keeps its order. */
  function Pull(s: seq<UserId>, u: UserId): (r: seq<UserId>)
    ensures u !in r
    ensures multiset(r) == multiset(s)[u := 0]
    ensures u !in s ==> r == s
  {
    if s == [] then []
    else
      assert s == [s[0]] + s[1..];
      if s[0] == u then Pull(s[1..], u) else [s[0]] + Pull(s[1..], u)
  }

  /** Pulling works on each part of a list separately, so the voters that
      stay keep their order. */
  lemma {:induction false} PullAppend(a: seq<UserId>, b: seq<UserId>, u: UserId)
    ensures Pull(a + b, u) == Pull(a, u) + Pull(b, u)
    decreases |a|
  {
    if a == [] {
      assert a + b == b;
    } else {
      assert (a + b)[0] == a[0];
      assert (a + b)[1..] == a[1..] + b;
      PullAppend(a[1..], b, u);
    }
  }

  /** Pulling a voter that was just pushed onto a list not holding it gives the list back. */
  lemma {:induction false} PullPushed(s: seq<UserId>, u: UserId)
    requires u !in s
    ensures Pull(s + [u], u) == s
  {
    if s == [] {
      assert [] + [u] == [u];
    } else {
      assert (s + [u])[1..] == s[1..] + [u];
      PullPushed(s[1..], u);
    }
  }

  /** The vote handler's toggle on one ledger. `up` removes an existing upvote,
      or adds the upvote and withdraws a downvote; `down` is symmetric; any
      other value leaves the ledger as it is. */
  function Cast(v: Votes, u: UserId, vote: string): (r: Votes)
    ensures vote == "up" ==> (u in r.upvotes <==> u !in v.upvotes)
    ensures vote == "up" ==> (u in r.downvotes <==> u in v.upvotes && u in v.downvotes)
    ensures vote == "up" && u in v.upvotes ==> r.downvotes == v.downvotes
    ensures vote == "up" && u !in v.upvotes ==> multiset(r.upvotes)[u] == 1
    ensures vote == "down" ==> (u in r.downvotes <==> u !in v.downvotes)
    ensures vote == "down" ==> (u in r.upvotes <==> u in v.downvotes && u in v.upvotes)
    ensures vote == "down" && u in v.downvotes ==> r.upvotes == v.upvotes
    ensures vote == "down" && u !in v.downvotes ==> multiset(r.downvotes)[u] == 1
    ensures vote != "up" && vote != "down" ==> r == v
    ensures forall x :: x != u ==>
              multiset(r.upvotes)[x] == multiset(v.upvotes)[x] &&
              multiset(r.downvotes)[x] == multiset(v.downvotes)[x]
  {
    var hasUp := u in v.upvotes;
    var hasDown := u in v.downvotes;
    if vote == "up" then
      if hasUp then Votes(Pull(v.upvotes, u), v.downvotes)
      else Votes(v.upvotes + [u], if hasDown then Pull(v.downvotes, u) else v.downvotes)
    else if vote == "down" then
      if hasDown then Votes(v.upvotes, Pull(v.downvotes, u))
      else Votes(if hasUp then Pull(v.upvotes, u) else v.upvotes, v.downvotes + [u])
    else v
  }

  /** The handler's own steps on the two lists: look up both memberships
      first, then push and pull. */
  method ToggleVote(v: Votes, u: UserId, vote: string) returns (r: Votes)
    ensures r == Cast(v, u, vote)
  {
    var upvotes, downvotes := v.upvotes, v.downvotes;
    var hasUpvoted := u in upvotes;
    var hasDownvoted := u in downvotes;
    if vote == "up" {
      if hasUpvoted {
        upvotes := Pull(upvotes, u);
      } else {
        upvotes := upvotes + [u];
        if hasDownvoted {
          downvotes := Pull(downvotes, u);
        }
      }
    } else if vote == "down" {
      if hasDownvoted {
        downvotes := Pull(downvotes, u);
      } else {
        downvotes := downvotes + [u];
        if hasUpvoted {
          upvotes := Pull(upvotes, u);
        }
      }
    }
    r := Votes(upvotes, downvotes);
  }

  /** No voter appears on both lists. */
  ghost predicate Exclusive(v: Votes)
  {
    forall x :: x in v.upvotes ==> x !in v.downvotes
  }

  /** A vote never puts its voter on both lists unless they already were. */
  lemma CastKeepsVoterApart(v: Votes, u: UserId, vote: string)
    requires !(u in v.upvotes && u in v.downvotes)
    ensures !(u in Cast(v, u, vote).upvotes && u in Cast(v, u, vote).downvotes)
  {
  }

  /** A vote keeps the whole ledger exclusive: the voter by the toggle rules,
      everyone else because their entries do not move. */
  lemma CastKeepsExclusive(v: Votes, u: UserId, vote: string)
    requires Exclusive(v)
    ensures Exclusive(Cast(v, u, vote))
  {
    var r := Cast(v, u, vote);
    forall x | x in r.upvotes
      ensures x !in r.downvotes
    {
      if x != u {
        assert multiset(r.upvotes)[x] == multiset(v.upvotes)[x];
        assert multiset(r.downvotes)[x] == multiset(v.downvotes)[x];
      }
    }
  }

  /** Voting `up` twice from a ledger that does not hold the voter gives the ledger back. */
  lemma UpTwiceRestores(v: Votes, u: UserId)
    requires u !in v.upvotes && u !in v.downvotes
    ensures Cast(Cast(v, u, "up"), u, "up") == v
  {
    PullPushed(v.upvotes, u);
  }

  /** The same for `down`. */
  lemma DownTwiceRestores(v: Votes, u: UserId)
    requires u !in v.upvotes && u !in v.downvotes
    ensures Cast(Cast(v, u, "down"), u, "down") == v
  {
    PullPushed(v.downvotes, u);
  }

  /** A run of votes on one definition, by any voters, in call order. */
  function Replay(v: Votes, ballots: seq<(UserId, string)>): Votes
    decreases |ballots|
  {
    if ballots == [] then v
    else Replay(Cast(v, ballots[0].0, ballots[0].1), ballots[1..])
  }

  /** Mutual exclusivity holds after every sequence of votes that starts from an exclusive ledger. */
  lemma {:induction false} ReplayKeepsExclusive(v: Votes, ballots: seq<(UserId, string)>)
    requires Exclusive(v)
    ensures Exclusive(Replay(v, ballots))
    decreases |ballots|
  {
    if ballots != [] {
      CastKeepsExclusive(v, ballots[0].0, ballots[0].1);
      ReplayKeepsExclusive(Cast(v, ballots[0].0, ballots[0].1), ballots[1..]);
    }
  }

  /** Voting `up` then `down` from a clean ledger leaves the voter a downvoter only. */
  lemma UpThenDown(v: Votes, u: UserId)
    requires u !in v.upvotes && u !in v.downvotes
    ensures u in Cast(Cast(v, u, "up"), u, "down").downvotes
    ensures u !in Cast(Cast(v, u, "up"), u, "down").upvotes
  {
  }
}
