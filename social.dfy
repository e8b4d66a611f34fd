/** The relation use-cases of the facade (`addFriend`, `addIdol`, `addCrush`,
    `addEnemy`) as functions of the accounts and the open sessions: what each
    call answers and what the accounts become. The facade's methods are
    proved to behave exactly like these; the lemmas below state what follows
    for callers. */
module Social {
  import opened Lists
  import opened Errors
  import opened Accounts

  /** What a use-case answers, and the accounts after it. */
  datatype Step = Step(outcome: Outcome, accounts: map<string, Account>)

  /** The text the mutual-crush notice would carry. */
  function CrushNotice(name: string): string
  {
    name + " é seu paquera - Recado do Jackut."
  }

  // ---------------------------------------------------------------------
  // Friendship

  /** The mutation `addFriend` performs once its guards have passed: if the
      target already holds a request from `me`, the target accepts it and
      `me` befriends the target; otherwise `me` joins the target's pending
      list. */
  function RequestFriendship(accts: map<string, Account>, me: string, target: string): (r: map<string, Account>)
    requires me in accts && target in accts && me != target
    ensures r.Keys == accts.Keys
    ensures forall l :: l in accts && l != me && l != target ==> r[l] == accts[l]
    ensures me in accts[target].pending ==>
      && r[me] == accts[me].(friends := r[me].friends)
      && (forall x :: x in r[me].friends <==> x in accts[me].friends || x == target)
      && r[target] == accts[target].(friends := r[target].friends, pending := r[target].pending)
      && (forall x :: x in r[target].friends <==> x in accts[target].friends || x == me)
      && (Consistent(accts[target]) ==> forall x :: x in r[target].pending <==> x in accts[target].pending && x != me)
    ensures me !in accts[target].pending ==>
      && r[me] == accts[me]
      && r[target] == accts[target].(pending := r[target].pending)
      && (forall x :: x in r[target].pending <==> x in accts[target].pending || x == me)
  {
    var a := accts[me];
    var b := accts[target];
    if me in b.pending then accts[target := Accepted(b, me)][me := WithFriend(a, target)]
    else accts[target := WithRequest(b, me)]
  }

  /** The login of a session whose account still exists is needed exactly
      where the source dereferences it. */
  predicate FriendCallable(accts: map<string, Account>, sessions: map<string, string>, sid: string, target: string)
  {
    target in accts && sid in sessions && sessions[sid] != target ==> sessions[sid] in accts
  }

  /** `addFriend(sid, target)`, guards in source order. */
  function AddFriend(accts: map<string, Account>, sessions: map<string, string>, sid: string, target: string): (s: Step)
    requires FriendCallable(accts, sessions, sid, target)
    ensures s.outcome.Fail? ==> s.accounts == accts
    ensures s.accounts.Keys == accts.Keys
  {
    if target !in accts then Step(Fail(UserNotFound(NotRegistered)), accts)
    else if sid !in sessions then Step(Fail(UserNotFound(NotRegistered)), accts)
    else
      var me := sessions[sid];
      if me == target then Step(Fail(Friendship(SelfFriend)), accts)
      else if target in accts[me].friends then Step(Fail(Friendship(AlreadyFriend)), accts)
      else if target in accts[me].pending then Step(Fail(Friendship(AwaitingAcceptance)), accts)
      else Step(Pass, RequestFriendship(accts, me, target))
  }

  /** Friendship is recorded on both sides between existing accounts. */
  ghost predicate FriendsSymmetric(accts: map<string, Account>)
  {
    forall x, y :: x in accts && y in accts && y in accts[x].friends ==> x in accts[y].friends
  }

  /** No account lists the same login both as friend and as pending
      requester. */
  ghost predicate PendingNotFriend(accts: map<string, Account>)
  {
    forall x, y :: x in accts && y in accts[x].pending ==> y !in accts[x].friends
  }

  ghost predicate AllConsistent(accts: map<string, Account>)
  {
    forall x :: x in accts ==> Consistent(accts[x])
  }

  /** The accepting branch of a request keeps the three properties. */
  lemma AcceptKeepsCoherence(accts: map<string, Account>, me: string, target: string)
    requires me in accts && target in accts && me != target
    requires target !in accts[me].friends && target !in accts[me].pending && me in accts[target].pending
    requires AllConsistent(accts) && FriendsSymmetric(accts) && PendingNotFriend(accts)
    ensures var r := RequestFriendship(accts, me, target);
      AllConsistent(r) && FriendsSymmetric(r) && PendingNotFriend(r)
  {
    var a, b := accts[me], accts[target];
    var r := RequestFriendship(accts, me, target);
    var a', b' := a.(friends := Insert(a.friends, target)),
                  b.(pending := RemoveFirst(b.pending, me), friends := Insert(b.friends, me));
    assert r == accts[target := b'][me := a'];
    RemoveFirstNoDup(b.pending, me);
    assert Consistent(a') && Consistent(b');
    forall x, y | x in r && y in r && y in r[x].friends ensures x in r[y].friends {
      if x != me && x != target {
        assert r[x] == accts[x];
      } else if x == me && y != target {
        assert y in a.friends;
      } else if x == target && y != me {
        assert y in b.friends;
      }
    }
    forall x, y | x in r && y in r[x].pending ensures y !in r[x].friends {
      if x != me && x != target {
        assert r[x] == accts[x];
      }
    }
  }

  /** The requesting branch keeps the three properties. */
  lemma RequestKeepsCoherence(accts: map<string, Account>, me: string, target: string)
    requires me in accts && target in accts && me != target
    requires target !in accts[me].friends && me !in accts[target].pending
    requires AllConsistent(accts) && FriendsSymmetric(accts) && PendingNotFriend(accts)
    ensures var r := RequestFriendship(accts, me, target);
      AllConsistent(r) && FriendsSymmetric(r) && PendingNotFriend(r)
  {
    var b := accts[target];
    var r := RequestFriendship(accts, me, target);
    var b' := b.(pending := Insert(b.pending, me));
    assert r == accts[target := b'];
    assert me !in b.friends;
    forall x, y | x in r && y in r[x].pending ensures y !in r[x].friends {
      if x != target {
        assert r[x] == accts[x];
      }
    }
  }

  /** `addFriend` keeps friendship symmetric, keeps friends and pending
      requests apart, and creates no duplicates. */
  lemma AddFriendKeepsCoherence(accts: map<string, Account>, sessions: map<string, string>, sid: string, target: string)
    requires FriendCallable(accts, sessions, sid, target)
    requires AllConsistent(accts) && FriendsSymmetric(accts) && PendingNotFriend(accts)
    ensures var s := AddFriend(accts, sessions, sid, target);
      AllConsistent(s.accounts) && FriendsSymmetric(s.accounts) && PendingNotFriend(s.accounts)
  {
    var s := AddFriend(accts, sessions, sid, target);
    if s.outcome.Pass? {
      var me := sessions[sid];
      if me in accts[target].pending {
        AcceptKeepsCoherence(accts, me, target);
      } else {
        RequestKeepsCoherence(accts, me, target);
      }
    }
  }

  /** Friend requests run "backwards": after A asks B, B asking A is refused
      as already pending, while A asking again completes the friendship on
      both sides and clears the request. */
  lemma RepeatedRequestCompletesFriendship(accts: map<string, Account>, sessions: map<string, string>,
                                           sa: string, sb: string)
    requires sa in sessions && sb in sessions
    requires sessions[sa] in accts && sessions[sb] in accts && sessions[sa] != sessions[sb]
    requires var a, b := sessions[sa], sessions[sb];
      b !in accts[a].friends && b !in accts[a].pending && a !in accts[b].friends && a !in accts[b].pending
    requires AllConsistent(accts)
    ensures var a, b := sessions[sa], sessions[sb];
      var first := AddFriend(accts, sessions, sa, b);
      && first.outcome == Pass
      && a in first.accounts[b].pending
      && AddFriend(first.accounts, sessions, sb, a).outcome == Fail(Friendship(AwaitingAcceptance))
      && var again := AddFriend(first.accounts, sessions, sa, b);
         again.outcome == Pass && b in again.accounts[a].friends && a in again.accounts[b].friends
         && a !in again.accounts[b].pending
  {
    var a, b := sessions[sa], sessions[sb];
    var first := AddFriend(accts, sessions, sa, b);
    assert first.accounts[b].pending == Insert(accts[b].pending, a);
    RemoveFirstNoDup(first.accounts[b].pending, a);
  }

  /** Where a removed login is re-created, an old friend still lists it while
      the new account lists nobody; a request from the new account then puts
      that login in the old friend's friends and pending list at once. */
  lemma StaleFriendshipBreaksSeparation(sessions: map<string, string>, sid: string)
    requires sid in sessions && sessions[sid] == "a"
    ensures var accts := map["a" := NewAccount("a", "p", "A"),
                             "b" := NewAccount("b", "p", "B").(friends := ["a"])];
      var s := AddFriend(accts, sessions, sid, "b");
      s.outcome == Pass && "a" in s.accounts["b"].friends && "a" in s.accounts["b"].pending
  {
  }

  // ---------------------------------------------------------------------
  // Idols, crushes and enemies

  /** Either side has declared the other an enemy. */
  predicate Hostile(accts: map<string, Account>, me: string, other: string)
    requires me in accts && other in accts
  {
    other in accts[me].enemies || me in accts[other].enemies
  }

  /** Both the acting account and the target must exist wherever the source
      dereferences them. */
  predicate TargetCallable(accts: map<string, Account>, sessions: map<string, string>, sid: string, target: string)
  {
    sid in sessions && sessions[sid] != target ==> sessions[sid] in accts && target in accts
  }

  /** `addIdol(sid, idol)`, guards in source order. */
  function AddIdol(accts: map<string, Account>, sessions: map<string, string>, sid: string, idol: string): (s: Step)
    requires TargetCallable(accts, sessions, sid, idol)
    ensures s.outcome.Fail? ==> s.accounts == accts
    ensures s.accounts.Keys == accts.Keys
  {
    if sid !in sessions then Step(Fail(UserNotFound(BadSession)), accts)
    else
      var me := sessions[sid];
      if me == idol then Step(Fail(AutoIdol), accts)
      else if Hostile(accts, me, idol) then Step(Fail(InteractionWithEnemy(accts[idol].name)), accts)
      else if idol in accts[me].idols then Step(Fail(IdolAlreadyExists), accts)
      else Step(Pass, accts[me := WithIdol(accts[me], idol)])
  }

  /** `addCrush(sid, crush)`. When the target already has the actor as a
      crush, the source sends the match notice from the session id
      "Jackut", which is not an open session (no session ever has it, by
      `Jackut.JackutIsNoSession`): the call throws UserNotFound after the
      crush has been recorded. */
  function AddCrush(accts: map<string, Account>, sessions: map<string, string>, sid: string, crush: string): (s: Step)
    requires TargetCallable(accts, sessions, sid, crush)
    requires "Jackut" !in sessions
    ensures s.outcome.Fail? && s.outcome != Fail(UserNotFound(NotRegistered)) ==> s.accounts == accts
    ensures s.accounts.Keys == accts.Keys
  {
    if sid !in sessions then Step(Fail(UserNotFound(BadSession)), accts)
    else
      var me := sessions[sid];
      if me == crush then Step(Fail(AutoCrush), accts)
      else if Hostile(accts, me, crush) then Step(Fail(InteractionWithEnemy(accts[crush].name)), accts)
      else if crush in accts[me].crushes then Step(Fail(CrushAlreadyExists), accts)
      else
        var after := accts[me := WithCrush(accts[me], crush)];
        if me in accts[crush].crushes then Step(Fail(UserNotFound(NotRegistered)), after)
        else Step(Pass, after)
  }

  /** `addEnemy(sid, enemy)`: only self-enmity and repetition are refused;
      the target is never looked up. */
  function AddEnemy(accts: map<string, Account>, sessions: map<string, string>, sid: string, enemy: string): (s: Step)
    requires sid in sessions && sessions[sid] != enemy ==> sessions[sid] in accts
    ensures s.outcome.Fail? ==> s.accounts == accts
    ensures s.accounts.Keys == accts.Keys
  {
    if sid !in sessions then Step(Fail(UserNotFound(BadSession)), accts)
    else
      var me := sessions[sid];
      if me == enemy then Step(Fail(AutoEnemy), accts)
      else if enemy in accts[me].enemies then Step(Fail(EnemyAlreadyExists), accts)
      else Step(Pass, accts[me := WithEnemy(accts[me], enemy)])
  }

  /** A successful declaration records exactly one directed edge, from the
      actor to the target, and changes nothing else. */
  lemma DeclarationsAddOneEdge(accts: map<string, Account>, sessions: map<string, string>, sid: string, target: string)
    requires TargetCallable(accts, sessions, sid, target)
    requires "Jackut" !in sessions
    ensures AddIdol(accts, sessions, sid, target).outcome.Pass? ==>
      var me := sessions[sid];
      AddIdol(accts, sessions, sid, target).accounts
        == accts[me := accts[me].(idols := accts[me].idols + [target])]
    ensures AddCrush(accts, sessions, sid, target).outcome.Pass? ==>
      var me := sessions[sid];
      AddCrush(accts, sessions, sid, target).accounts
        == accts[me := accts[me].(crushes := accts[me].crushes + [target])]
    ensures AddEnemy(accts, sessions, sid, target).outcome.Pass? ==>
      var me := sessions[sid];
      AddEnemy(accts, sessions, sid, target).accounts
        == accts[me := accts[me].(enemies := accts[me].enemies + [target])]
  {
  }

  /** Enmity declared in either direction blocks admiration and romantic
      interest in both directions, and a repeated declaration is refused. */
  lemma EnemyBlocksIdolAndCrush(accts: map<string, Account>, sessions: map<string, string>, sa: string, sb: string)
    requires sa in sessions && sb in sessions
    requires sessions[sa] in accts && sessions[sb] in accts && sessions[sa] != sessions[sb]
    requires sessions[sb] in accts[sessions[sa]].enemies
    requires "Jackut" !in sessions
    ensures var a, b := sessions[sa], sessions[sb];
      && AddIdol(accts, sessions, sa, b).outcome == Fail(InteractionWithEnemy(accts[b].name))
      && AddIdol(accts, sessions, sb, a).outcome == Fail(InteractionWithEnemy(accts[a].name))
      && AddCrush(accts, sessions, sa, b).outcome == Fail(InteractionWithEnemy(accts[b].name))
      && AddCrush(accts, sessions, sb, a).outcome == Fail(InteractionWithEnemy(accts[a].name))
      && AddEnemy(accts, sessions, sa, b).outcome == Fail(EnemyAlreadyExists)
  {
  }

  /** Declaring a crush on someone who already has the actor as a crush
      records the crush and then fails with UserNotFound; no notice is
      delivered. */
  lemma MutualCrushRecordedThenFails(accts: map<string, Account>, sessions: map<string, string>, sa: string, sb: string)
    requires sa in sessions && sb in sessions
    requires sessions[sa] in accts && sessions[sb] in accts && sessions[sa] != sessions[sb]
    requires var a, b := sessions[sa], sessions[sb];
      !Hostile(accts, a, b) && b !in accts[a].crushes && a in accts[b].crushes
    requires "Jackut" !in sessions
    ensures var a, b := sessions[sa], sessions[sb];
      var s := AddCrush(accts, sessions, sa, b);
      && s.outcome == Fail(UserNotFound(NotRegistered))
      && b in s.accounts[a].crushes
      && s.accounts[b] == accts[b]
      && s.accounts[a].messages == accts[a].messages
  {
  }
}
