/**
 * The two social-graph handlers of backend/controllers/user.controller.js:
 * `toggleFollowUser`, which follows or unfollows a user and logs a "follow"
 * notification, and `getSuggestedUsers`, which picks up to four users the
 * caller does not follow yet from a random sample.
 *
 * The caller's id is the one the authentication middleware attached to the
 * request; the target is the raw `:id` route parameter.
 */
module UserController {
  import opened Wrappers
  import opened IdLists
  import opened UserModel
  import opened Store
  import opened ObjectIds

  // ----- toggleFollowUser -----

  /** The outcome of `toggleFollowUser`, with the status code it is sent with. */
  datatype ToggleReply = Followed | Unfollowed | CannotToggleSelf | UsersNotFound | InternalError {
    function Status(): int {
      match this
      case Followed | Unfollowed => 200
      case CannotToggleSelf | UsersNotFound => 400
      case InternalError => 500
    }
  }

  const FollowKind := "follow"

  /**
   * The follow branch (lines 46-67): the caller is pushed onto the target's
   * `followers`, then the target onto the caller's `following` (the caller's
   * document is read after the first update, as the second
   * `findByIdAndUpdate` does), and one "follow" notification is logged.
   */
  function Follow(s: State, caller: UserId, target: UserId): (r: State)
    requires caller in s.users && target in s.users
    ensures r.users.Keys == s.users.Keys
    ensures forall id :: id in s.users && id != caller && id != target ==> r.users[id] == s.users[id]
    ensures caller != target ==>
      r.users[target] == s.users[target].(followers := s.users[target].followers + [caller]) &&
      r.users[caller] == s.users[caller].(following := s.users[caller].following + [target])
    ensures caller in r.users[target].followers && target in r.users[caller].following
    ensures r.notifications == s.notifications + [Notification(FollowKind, caller, target)]
  {
    var t := s.users[target];
    var afterTarget := s.users[target := t.(followers := Push(t.followers, caller))];
    var c := afterTarget[caller];
    State(afterTarget[caller := c.(following := Push(c.following, target))],
          s.notifications + [Notification(FollowKind, caller, target)])
  }

  /** The unfollow branch (lines 68-72): every occurrence of both ids is pulled and nothing is logged. */
  function Unfollow(s: State, caller: UserId, target: UserId): (r: State)
    requires caller in s.users && target in s.users
    ensures r.users.Keys == s.users.Keys
    ensures forall id :: id in s.users && id != caller && id != target ==> r.users[id] == s.users[id]
    ensures caller != target ==>
      r.users[target] == s.users[target].(followers := Pull(s.users[target].followers, caller)) &&
      r.users[caller] == s.users[caller].(following := Pull(s.users[caller].following, target))
    ensures caller !in r.users[target].followers && target !in r.users[caller].following
    ensures r.notifications == s.notifications
  {
    var t := s.users[target];
    var afterTarget := s.users[target := t.(followers := Pull(t.followers, caller))];
    var c := afterTarget[caller];
    State(afterTarget[caller := c.(following := Pull(c.following, target))], s.notifications)
  }

  /**
   * Lines 43-73, once both documents are loaded: the edge state is read from
   * the target's `followers` only, and the toggle negates it.
   */
  function ApplyToggle(s: State, caller: UserId, target: UserId): (r: (ToggleReply, State))
    requires caller in s.users && target in s.users
    ensures r.1.users.Keys == s.users.Keys
    ensures r.0 == Followed || r.0 == Unfollowed
    ensures r.0 == Followed <==> caller !in s.users[target].followers
    ensures (caller in r.1.users[target].followers) <==> (caller !in s.users[target].followers)
    ensures (target in r.1.users[caller].following) <==> (caller !in s.users[target].followers)
    ensures forall id :: id in s.users && id != caller && id != target ==> r.1.users[id] == s.users[id]
    ensures SameProfile(r.1.users[target], s.users[target]) && SameProfile(r.1.users[caller], s.users[caller])
    ensures r.0 == Followed ==> r.1.notifications == s.notifications + [Notification(FollowKind, caller, target)]
    ensures r.0 == Unfollowed ==> r.1.notifications == s.notifications
  {
    if caller !in s.users[target].followers then (Followed, Follow(s, caller, target))
    else (Unfollowed, Unfollow(s, caller, target))
  }

  /**
   * `toggleFollowUser` as the source writes it: both lookups cast the
   * parameter first, then the self check compares the RAW parameter string
   * with `req.user._id.toString()`.
   */
  function ToggleFollowAsWritten(s: State, caller: UserId, param: string): (r: (ToggleReply, State))
    ensures r.0 == CannotToggleSelf <==> Cast(param).Some? && param == IdString(caller)
  {
    match Cast(param)
    case None => (InternalError, s)
    case Some(target) =>
      if param == IdString(caller) then (CannotToggleSelf, s)
      else if target !in s.users || caller !in s.users then (UsersNotFound, s)
      else ApplyToggle(s, caller, target)
  }

  /**
   * `toggleFollowUser` with the self check made on the cast id, so that every
   * spelling of the caller's own id is refused.
   */
  function ToggleFollow(s: State, caller: UserId, param: string): (r: (ToggleReply, State))
    ensures r.0.Status() != 200 ==> r.1 == s
    ensures r.0 == InternalError <==> Cast(param).None?
    ensures r.0 == CannotToggleSelf <==> Cast(param) == Some(caller)
    ensures r.0 == UsersNotFound <==>
      Cast(param).Some? && Cast(param).value != caller &&
      (Cast(param).value !in s.users || caller !in s.users)
    ensures r.0.Status() == 200 ==>
      Cast(param).Some? && Cast(param).value != caller &&
      Cast(param).value in s.users && caller in s.users &&
      r == ApplyToggle(s, caller, Cast(param).value)
  {
    match Cast(param)
    case None => (InternalError, s)
    case Some(target) =>
      if target == caller then (CannotToggleSelf, s)
      else if target !in s.users || caller !in s.users then (UsersNotFound, s)
      else ApplyToggle(s, caller, target)
  }

  /** Following rewrites only the caller's `following` and the target's `followers`. */
  lemma FollowChangesOneEdge(s: State, caller: UserId, target: UserId)
    requires caller in s.users && target in s.users && caller != target
    ensures OneEdgeChanged(s.users, Follow(s, caller, target).users, caller, target)
  {
    var before, after := s.users, Follow(s, caller, target).users;
    var t, c := before[target], before[caller];
    assert after[target] == t.(followers := Push(t.followers, caller));
    assert after[caller] == c.(following := Push(c.following, target));
    forall a | a in before ensures SameProfile(after[a], before[a]) {
      if a != caller && a != target {
        assert after[a] == before[a];
      }
    }
  }

  /** Unfollowing rewrites only the caller's `following` and the target's `followers`. */
  lemma UnfollowChangesOneEdge(s: State, caller: UserId, target: UserId)
    requires caller in s.users && target in s.users && caller != target
    ensures OneEdgeChanged(s.users, Unfollow(s, caller, target).users, caller, target)
  {
    var before, after := s.users, Unfollow(s, caller, target).users;
    var t, c := before[target], before[caller];
    assert after[target] == t.(followers := Pull(t.followers, caller));
    assert after[caller] == c.(following := Pull(c.following, target));
    forall a | a in before ensures SameProfile(after[a], before[a]) {
      if a != caller && a != target {
        assert after[a] == before[a];
      }
    }
  }

  /** A toggle between two distinct stored users keeps the follow graph consistent. */
  lemma ApplyToggleKeepsGraph(s: State, caller: UserId, target: UserId)
    requires caller in s.users && target in s.users && caller != target
    requires GraphConsistent(s.users)
    ensures GraphConsistent(ApplyToggle(s, caller, target).1.users)
  {
    var t, c := s.users[target], s.users[caller];
    if caller !in t.followers {
      // by symmetry the edge is absent from the caller's list too
      assert target !in c.following;
      FollowChangesOneEdge(s, caller, target);
      PushKeepsNoDuplicates(t.followers, caller);
      PushKeepsNoDuplicates(c.following, target);
      OneEdgeChangeKeepsGraph(s.users, Follow(s, caller, target).users, caller, target);
    } else {
      UnfollowChangesOneEdge(s, caller, target);
      PullKeepsNoDuplicates(t.followers, caller);
      PullKeepsNoDuplicates(c.following, target);
      OneEdgeChangeKeepsGraph(s.users, Unfollow(s, caller, target).users, caller, target);
    }
  }

  /** A toggle touches no path the schema validates, so the table stays valid. */
  lemma ApplyToggleKeepsTable(s: State, caller: UserId, target: UserId)
    requires caller in s.users && target in s.users && caller != target
    requires TableValid(s.users)
    ensures TableValid(ApplyToggle(s, caller, target).1.users)
  {
    if caller !in s.users[target].followers {
      FollowChangesOneEdge(s, caller, target);
      SameProfilesKeepTable(s.users, Follow(s, caller, target).users);
    } else {
      UnfollowChangesOneEdge(s, caller, target);
      SameProfilesKeepTable(s.users, Unfollow(s, caller, target).users);
    }
  }

  /** The corrected toggle keeps the follow graph and the schema constraints of the table. */
  lemma ToggleFollowKeepsInvariants(s: State, caller: UserId, param: string)
    requires TableValid(s.users) && GraphConsistent(s.users)
    ensures TableValid(ToggleFollow(s, caller, param).1.users)
    ensures GraphConsistent(ToggleFollow(s, caller, param).1.users)
  {
    var r := ToggleFollow(s, caller, param);
    if r.0.Status() == 200 {
      var target := Cast(param).value;
      ApplyToggleKeepsGraph(s, caller, target);
      ApplyToggleKeepsTable(s, caller, target);
    }
  }

  /** Toggling twice puts the caller's membership in the target's followers back where it was. */
  lemma ToggleTwiceRestoresMembership(s: State, caller: UserId, param: string)
    requires ToggleFollow(s, caller, param).0.Status() == 200
    ensures var target := Cast(param).value;
            var twice := ToggleFollow(ToggleFollow(s, caller, param).1, caller, param).1;
            target in twice.users &&
            (caller in twice.users[target].followers <==> caller in s.users[target].followers)
  {
    var target := Cast(param).value;
    var once := ToggleFollow(s, caller, param).1;
    assert once.users.Keys == s.users.Keys;
    var twice := ToggleFollow(once, caller, param);
    assert twice == ApplyToggle(once, caller, target);
  }

  /**
   * From a consistent graph, following and then unfollowing leaves every user
   * document exactly as it was; only the one notification stays in the log.
   */
  lemma FollowThenUnfollowRestoresUsers(s: State, caller: UserId, target: UserId)
    requires caller in s.users && target in s.users && caller != target
    requires GraphConsistent(s.users)
    requires caller !in s.users[target].followers
    ensures var once := ApplyToggle(s, caller, target);
            var twice := ApplyToggle(once.1, caller, target);
            once.0 == Followed && twice.0 == Unfollowed &&
            twice.1.users == s.users &&
            twice.1.notifications == s.notifications + [Notification(FollowKind, caller, target)]
  {
    // by symmetry the edge is absent from the caller's list too
    assert target !in s.users[caller].following;
    UnfollowUndoesFollow(s, caller, target);
  }

  /** Pulling what a push added, when it was absent before, restores both documents. */
  lemma UnfollowUndoesFollow(s: State, caller: UserId, target: UserId)
    requires caller in s.users && target in s.users && caller != target
    requires caller !in s.users[target].followers && target !in s.users[caller].following
    ensures Unfollow(Follow(s, caller, target), caller, target).users == s.users
  {
    var t, c := s.users[target], s.users[caller];
    var once := Follow(s, caller, target);
    var twice := Unfollow(once, caller, target);
    var t1, c1 := once.users[target], once.users[caller];
    assert twice.users[target] == t1.(followers := Pull(t1.followers, caller));
    assert twice.users[caller] == c1.(following := Pull(c1.following, target));
    PullUndoesPush(t.followers, caller);
    PullUndoesPush(c.following, target);
    forall a | a in s.users ensures twice.users[a] == s.users[a] {
    }
    assert twice.users == s.users;
  }

  /** For the spelling `toString()` produces, the handler as written and the corrected one agree. */
  lemma AsWrittenAgreesOnCanonicalSpelling(s: State, caller: UserId, target: UserId)
    ensures ToggleFollowAsWritten(s, caller, IdString(target)) == ToggleFollow(s, caller, IdString(target))
  {
    CastIdString(target);
    if IdString(target) == IdString(caller) {
      IdStringInjective(target, caller);
    }
  }

  /**
   * The self check as written lets a caller follow themselves: an upper-case
   * spelling of their own id differs from `toString()`, yet casts to the same
   * id. The corrected handler refuses it.
   */
  lemma AsWrittenAllowsSelfFollow()
    ensures var me: UserId := 10;
            var spelling := Zeros(Width - 1) + ['A'];
            var s := State(map[me := NewUser(me, "Alice", "alice@example.com", "hashed-password", "alice")], []);
            var r := ToggleFollowAsWritten(s, me, spelling);
            GraphConsistent(s.users) && r.0 == Followed && !NoSelfEdges(r.1.users) &&
            ToggleFollow(s, me, spelling) == (CannotToggleSelf, s)
  {
    UpperCaseSpelling();
  }

  /**
   * The imperative handler, with the self check corrected as in `ToggleFollow`
   * (the cast id is compared with the caller's id, not the raw parameter
   * string): one atomic step on the database, as `ToggleFollow` describes it.
   * On every spelling `toString()` produces it behaves as the source does
   * (`AsWrittenAgreesOnCanonicalSpelling`).
   */
  method ToggleFollowUser(db: Db, caller: UserId, param: string) returns (reply: ToggleReply)
    modifies db
    ensures (reply, db.Snapshot()) == ToggleFollow(old(db.Snapshot()), caller, param)
    ensures old(db.Valid()) ==> db.Valid()
  {
    ghost var s := db.Snapshot();
    if db.Valid() {
      ToggleFollowKeepsInvariants(s, caller, param);
    }
    var id := Cast(param);
    if id.None? {
      return InternalError;
    }
    var target := id.value;
    var userToModify := if target in db.users then Some(db.users[target]) else None;
    var currentUser := if caller in db.users then Some(db.users[caller]) else None;
    if target == caller {
      return CannotToggleSelf;
    }
    if userToModify.None? || currentUser.None? {
      return UsersNotFound;
    }
    var isFollowing := caller in userToModify.value.followers;
    if !isFollowing {
      var t := db.users[target];
      db.users := db.users[target := t.(followers := Push(t.followers, caller))];
      var c := db.users[caller];
      db.users := db.users[caller := c.(following := Push(c.following, target))];
      db.notifications := db.notifications + [Notification(FollowKind, caller, target)];
      reply := Followed;
    } else {
      var t := db.users[target];
      db.users := db.users[target := t.(followers := Pull(t.followers, caller))];
      var c := db.users[caller];
      db.users := db.users[caller := c.(following := Pull(c.following, target))];
      reply := Unfollowed;
    }
  }

  // ----- getSuggestedUsers -----

  const SampleSize := 10
  const SuggestionLimit := 4

  function Min(a: int, b: int): int {
    if a <= b then a else b
  }

  /**
   * What `$match: {_id: {$ne: userId}}` followed by `$sample: {size: 10}`
   * can return: at most ten distinct stored documents, none of them the caller.
   * Which ones it returns is random, so the sample is an input of the model.
   */
  predicate IsSample(users: map<UserId, User>, caller: UserId, sample: seq<User>) {
    |sample| <= SampleSize &&
    (forall i :: 0 <= i < |sample| ==>
      sample[i].id != caller && sample[i].id in users && users[sample[i].id] == sample[i]) &&
    (forall i, j :: 0 <= i < j < |sample| ==> sample[i].id != sample[j].id)
  }

  /** `users.filter(user => !following.includes(user._id))`. */
  function NotFollowed(following: seq<UserId>, sample: seq<User>): (r: seq<User>)
    ensures |r| <= |sample|
  {
    if sample == [] then []
    else (if sample[0].id in following then [] else [sample[0]]) + NotFollowed(following, sample[1..])
  }

  /** The filter keeps exactly the sampled users the caller does not follow. */
  lemma {:induction false} NotFollowedMembers(following: seq<UserId>, sample: seq<User>)
    ensures forall u :: u in NotFollowed(following, sample) <==> u in sample && u.id !in following
  {
    if sample != [] {
      NotFollowedMembers(following, sample[1..]);
      assert sample == [sample[0]] + sample[1..];
    }
  }

  /** The filter keeps the sample's order: filtering a concatenation filters each part. */
  lemma {:induction false} NotFollowedAppend(following: seq<UserId>, a: seq<User>, b: seq<User>)
    ensures NotFollowed(following, a + b) == NotFollowed(following, a) + NotFollowed(following, b)
  {
    if a == [] {
      assert a + b == b;
    } else {
      assert (a + b)[1..] == a[1..] + b;
      NotFollowedAppend(following, a[1..], b);
    }
  }

  /** `user.password = null`. */
  function Scrubbed(u: User): (r: User)
    ensures r.password.None?
  {
    u.(password := None)
  }

  /**
   * The response of `getSuggestedUsers`. When the caller's document is missing,
   * `findById` yields null and the filter callback throws on the first sampled
   * user reading its `following`, answered with 500 (`None`); with an empty
   * sample the callback never runs and the answer is an empty list. Otherwise
   * it is the first four users of the sample the caller does not follow, in
   * sample order, each with its password set to null.
   */
  function SuggestedUsers(users: map<UserId, User>, caller: UserId, sample: seq<User>): (r: Option<seq<User>>)
    ensures r.None? <==> caller !in users && sample != []
    ensures r.Some? ==> |r.value| <= SuggestionLimit
    ensures caller !in users && sample == [] ==> r == Some([])
    ensures caller in users ==>
      r.Some? && |r.value| == Min(SuggestionLimit, |NotFollowed(users[caller].following, sample)|)
  {
    if caller !in users then (if sample == [] then Some([]) else None)
    else
      var kept := NotFollowed(users[caller].following, sample);
      var prefix := kept[..Min(SuggestionLimit, |kept|)];
      Some(seq(|prefix|, i requires 0 <= i < |prefix| => Scrubbed(prefix[i])))
  }

  /**
   * Each suggestion is, in order, the scrubbed copy of the next unfollowed
   * sampled user; no suggestion is the caller or someone the caller follows,
   * and none carries a password.
   */
  lemma SuggestedUsersAreUnfollowedStrangers(users: map<UserId, User>, caller: UserId, sample: seq<User>)
    requires caller in users && IsSample(users, caller, sample)
    ensures var r := SuggestedUsers(users, caller, sample).value;
            var kept := NotFollowed(users[caller].following, sample);
            (forall i :: 0 <= i < |r| ==> r[i] == kept[i].(password := None)) &&
            (forall u :: u in r ==>
               u.id != caller && u.id !in users[caller].following && u.password.None? &&
               exists v :: v in sample && u == v.(password := None))
  {
    var r := SuggestedUsers(users, caller, sample).value;
    var kept := NotFollowed(users[caller].following, sample);
    assert forall i :: 0 <= i < |r| ==> r[i] == kept[i].(password := None);
    UnfollowedStrangers(users, caller, sample, kept, r);
  }

  /** Scrubbed copies of users the filter kept are strangers the caller does not follow. */
  lemma UnfollowedStrangers(users: map<UserId, User>, caller: UserId, sample: seq<User>, kept: seq<User>, r: seq<User>)
    requires caller in users && IsSample(users, caller, sample)
    requires kept == NotFollowed(users[caller].following, sample) && |r| <= |kept|
    requires forall i :: 0 <= i < |r| ==> r[i] == kept[i].(password := None)
    ensures forall u :: u in r ==>
              u.id != caller && u.id !in users[caller].following && u.password.None? &&
              exists v :: v in sample && u == v.(password := None)
  {
    NotFollowedMembers(users[caller].following, sample);
    forall u | u in r
      ensures u.id != caller && u.id !in users[caller].following && u.password.None?
      ensures exists v :: v in sample && u == v.(password := None)
    {
      var i :| 0 <= i < |r| && r[i] == u;
      assert kept[i] in kept;
      var k :| 0 <= k < |sample| && sample[k] == kept[i];
      assert u == sample[k].(password := None);
    }
  }


  /**
   * The imperative handler: a filter loop over the sample, the `slice(0, 4)`,
   * and the `forEach` that nulls each password in place.
   */
  method GetSuggestedUsers(db: Db, caller: UserId, sample: seq<User>) returns (r: Option<seq<User>>)
    ensures r == SuggestedUsers(db.users, caller, sample)
  {
    var users := db.users;
    var me := if caller in users then Some(users[caller]) else None;
    var following := if me.Some? then me.value.following else [];
    if me.None? && sample != [] {
      // the filter callback reads `following` of null on the first sampled user
      return None;
    }
    var filtered := FilterUnfollowed(following, sample);
    var suggested := ScrubEach(filtered[..Min(SuggestionLimit, |filtered|)]);
    SuggestedUsersFromFiltered(users, caller, sample, filtered, suggested);
    return Some(suggested);
  }

  /** The steps of `GetSuggestedUsers` after the filter give the answer `SuggestedUsers` describes. */
  lemma SuggestedUsersFromFiltered(users: map<UserId, User>, caller: UserId, sample: seq<User>,
                                   filtered: seq<User>, suggested: seq<User>)
    requires caller in users || sample == []
    requires filtered == NotFollowed(if caller in users then users[caller].following else [], sample)
    requires |suggested| == Min(SuggestionLimit, |filtered|)
    requires forall j :: 0 <= j < |suggested| ==> suggested[j] == Scrubbed(filtered[j])
    ensures SuggestedUsers(users, caller, sample) == Some(suggested)
  {
    var expected := SuggestedUsers(users, caller, sample).value;
    assert |expected| == |suggested|;
    assert forall j :: 0 <= j < |suggested| ==> suggested[j] == expected[j];
    assert suggested == expected;
  }

  /** `users.filter(user => !following.includes(user._id))`, one sampled user at a time. */
  method FilterUnfollowed(following: seq<UserId>, sample: seq<User>) returns (filtered: seq<User>)
    ensures filtered == NotFollowed(following, sample)
  {
    filtered := [];
    var i := 0;
    while i < |sample|
      invariant 0 <= i <= |sample|
      invariant filtered == NotFollowed(following, sample[..i])
    {
      assert sample[..i + 1] == sample[..i] + [sample[i]];
      NotFollowedAppend(following, sample[..i], [sample[i]]);
      assert NotFollowed(following, [sample[i]]) == if sample[i].id in following then [] else [sample[i]];
      if sample[i].id !in following {
        filtered := filtered + [sample[i]];
      }
      i := i + 1;
    }
    assert sample[..|sample|] == sample;
  }

  /** `forEach(user => user.password = null)`, one element at a time. */
  method ScrubEach(users: seq<User>) returns (r: seq<User>)
    ensures |r| == |users|
    ensures forall j :: 0 <= j < |r| ==> r[j] == Scrubbed(users[j])
  {
    r := users;
    var k := 0;
    while k < |r|
      invariant 0 <= k <= |r| == |users|
      invariant forall j :: 0 <= j < k ==> r[j] == Scrubbed(users[j])
      invariant forall j :: k <= j < |r| ==> r[j] == users[j]
    {
      r := r[k := r[k].(password := None)];
      k := k + 1;
    }
  }
}
