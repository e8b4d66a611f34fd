/** The facade of the social network (`Facade.java`): the registry of
    accounts by login, the open sessions, the communities by name and the
    session counter, and every use-case the system offers on top of them. */
module Jackut {
  import opened Lists
  import opened Text
  import opened Errors
  import opened Accounts
  import opened Communities
  import Social

  /** The ids a counter that has reached `counter` has issued:
      "session1" up to "session<counter>". */
  ghost function IssuedIds(counter: nat): set<string>
  {
    if counter == 0 then {} else IssuedIds(counter - 1) + {SessionId(counter)}
  }

  /** What the session counter guarantees about the open sessions: each one
      was issued by it. */
  ghost predicate Issuable(sessions: map<string, string>, counter: nat)
  {
    forall sid :: sid in sessions ==> sid in IssuedIds(counter)
  }

  /** The id for counter value `k` has been issued exactly when `k` has been
      reached. */
  lemma {:induction false} IssuedIff(k: nat, counter: nat)
    ensures SessionId(k) in IssuedIds(counter) <==> 1 <= k <= counter
  {
    if counter > 0 {
      IssuedIff(k, counter - 1);
      SessionIdInjective(k, counter);
    }
  }

  /** Every issued id carries the "session" prefix. */
  lemma {:induction false} IssuedArePrefixed(sid: string, counter: nat)
    requires sid in IssuedIds(counter)
    ensures StartsWith(sid, SessionPrefix)
  {
    if sid != SessionId(counter) {
      IssuedArePrefixed(sid, counter - 1);
    }
  }

  /** No id the counter has yet to produce is open. */
  lemma NotYetOpen(sessions: map<string, string>, counter: nat, k: nat)
    requires Issuable(sessions, counter) && counter < k
    ensures SessionId(k) !in sessions
  {
    IssuedIff(k, counter);
  }

  /** Opening a session under the next id: that id was not open, and every
      open id, the new one included, was issued by the incremented
      counter. */
  lemma OpenKeepsIssuable(sessions: map<string, string>, counter: nat, login: string)
    requires Issuable(sessions, counter)
    ensures SessionId(counter + 1) !in sessions
    ensures Issuable(sessions[SessionId(counter + 1) := login], counter + 1)
  {
    NotYetOpen(sessions, counter, counter + 1);
  }

  /** "Jackut", the sender `addCrush` uses for its notice, is never a session
      id: it is too short to carry the "session" prefix. */
  lemma JackutIsNoSession(sessions: map<string, string>, counter: nat)
    requires Issuable(sessions, counter)
    ensures "Jackut" !in sessions
  {
    if "Jackut" in IssuedIds(counter) {
      IssuedArePrefixed("Jackut", counter);
    }
  }

  /** A community value is filed under its own name, is well formed and
      keeps its owner among its members. */
  ghost predicate Filed(g: Group, n: string)
  {
    && g.name == n
    && WellFormed(g)
    && g.owner in g.members
  }

  /** Reading the head of a member's queue keeps a community filed. */
  lemma PopKeepsFiled(g: Group, n: string, member: string)
    requires Filed(g, n) && member in g.messages && g.messages[member] != []
    ensures Filed(Pop(g, member), n)
  {
  }

  /** `g` once `login` has joined it: a member with an empty queue whose
      account object `u` observes the broadcasts. */
  function Admitted(g: Group, login: string, u: Users): Group
  {
    Subscribed(Enlisted(g, login), u)
  }

  /** Enlisting a newcomer keeps a community filed. */
  lemma EnlistKeepsFiled(g: Group, n: string, login: string)
    requires Filed(g, n) && login !in g.members
    ensures Filed(Enlisted(g, login), n)
  {
  }

  /** A new observer keeps a community filed. */
  lemma SubscribeKeepsFiled(g: Group, n: string, u: Users)
    requires Filed(g, n)
    ensures Filed(Subscribed(g, u), n)
  {
  }

  /** The communities left once `login` is removed: the ones it owns are
      dropped, every other one evicts it. */
  function Disbanded(gs: map<string, Group>, login: string): (r: map<string, Group>)
    ensures forall n :: n in r <==> n in gs && gs[n].owner != login
    ensures forall n :: n in r ==>
      && r[n].name == gs[n].name && r[n].description == gs[n].description
      && r[n].owner == gs[n].owner && r[n].observers == gs[n].observers
      && (forall m :: m in r[n].members ==> m in gs[n].members)
      && (forall m :: m in gs[n].members && m != login ==> m in r[n].members)
      && (login in gs[n].members ==> login !in r[n].messages)
      && (forall m :: m in gs[n].messages && m != login ==> m in r[n].messages && r[n].messages[m] == gs[n].messages[m])
  {
    map n | n in gs && gs[n].owner != login :: Evict(gs[n], login)
  }

  /** Every account once the broadcasts of `sender` are purged from its
      personal queue. */
  function Purged(accts: map<string, Account>, sender: string): (r: map<string, Account>)
    ensures r.Keys == accts.Keys
    ensures forall l :: l in r ==>
      && r[l] == accts[l].(messages := r[l].messages)
      && (forall i :: 0 <= i < |r[l].messages| ==> !FromSender(r[l].messages[i], sender))
      && (forall m :: m in accts[l].messages && !FromSender(m, sender) ==> m in r[l].messages)
  {
    map l | l in accts :: Unsent(accts[l], sender)
  }

  /** How many times each registered account object is listed among a
      community's observers. */
  function Tally(observers: seq<Users>, users: map<string, Users>): map<string, nat>
  {
    map l | l in users :: Count(observers, users[l])
  }

  /** Every account once it has received `message` as many times as `tally`
      says. */
  function Notified(accts: map<string, Account>, message: string, tally: map<string, nat>): map<string, Account>
  {
    map l | l in accts :: Delivered(accts[l], message, if l in tally then tally[l] else 0)
  }

  /** Receiving broadcasts changes only the queues: each account's queue
      keeps what it held and gains `tally` copies of the message at its end,
      and every relation list stays duplicate-free. */
  lemma NotifiedKeepsConsistent(accts: map<string, Account>, message: string, tally: map<string, nat>)
    requires forall l :: l in accts ==> Consistent(accts[l])
    ensures Notified(accts, message, tally).Keys == accts.Keys
    ensures forall l :: l in accts ==>
      Notified(accts, message, tally)[l] == accts[l].(messages := Notified(accts, message, tally)[l].messages)
    ensures forall l :: l in accts ==>
      var q := Notified(accts, message, tally)[l].messages;
      var t := if l in tally then tally[l] else 0;
      && |q| == |accts[l].messages| + t
      && q[..|accts[l].messages|] == accts[l].messages
      && (forall i :: |accts[l].messages| <= i < |q| ==> q[i] == message)
    ensures forall l :: l in accts ==> Consistent(Notified(accts, message, tally)[l])
  {
  }

  /** `after` is `before` once `login`, a member of the community filed
      under `source` with a non-empty queue there, has read `value`, the head
      of that queue. */
  ghost predicate Took(before: map<string, Group>, after: map<string, Group>, login: string, source: string, value: string)
  {
    && source in before
    && login in before[source].members
    && login in before[source].messages
    && before[source].messages[login] != []
    && value == before[source].messages[login][0]
    && after == before[source := Pop(before[source], login)]
  }

  /** No community outside `todo` holds a queued message for `login`. */
  ghost predicate Drained(gs: map<string, Group>, todo: set<string>, login: string)
  {
    forall n :: n in gs && n !in todo && login in gs[n].messages ==> gs[n].messages[login] == []
  }

  /** The community holds no queued message for `login`. */
  ghost predicate NoneFor(g: Group, login: string)
  {
    login in g.messages ==> g.messages[login] == []
  }

  /** A visited community without messages for `login` advances the
      `readMessage` loop. */
  lemma DrainStep(gs: map<string, Group>, todo: set<string>, n: string, login: string)
    requires Drained(gs, todo, login) && n in gs && NoneFor(gs[n], login)
    ensures Drained(gs, todo - {n}, login)
  {
  }

  /** Once every community is visited, no queue of `login` holds a message. */
  lemma DrainedEverywhere(gs: map<string, Group>, login: string)
    requires forall n :: n in gs ==> Filed(gs[n], n)
    requires Drained(gs, {}, login)
    ensures forall n :: n in gs && login in gs[n].members ==> login in gs[n].messages && gs[n].messages[login] == []
  {
  }

  /** Progress of the disband loop: the communities still in `todo` are as
      they were; of the others, those `login` owns are gone and the rest have
      evicted it. */
  ghost predicate DisbandedBut(gs: map<string, Group>, orig: map<string, Group>, todo: set<string>, login: string)
  {
    && todo <= orig.Keys
    && (forall n :: n in gs ==> n in orig)
    && (forall n :: n in orig ==> (n in gs <==> n in todo || orig[n].owner != login))
    && forall n :: n in gs ==> gs[n] == if n in todo then orig[n] else Evict(orig[n], login)
  }

  /** Dropping or evicting from one more community advances the disband
      loop. */
  lemma DisbandStep(gs: map<string, Group>, orig: map<string, Group>, todo: set<string>, n: string, login: string)
    requires DisbandedBut(gs, orig, todo, login) && n in todo
    ensures n in gs && gs[n] == orig[n]
    ensures orig[n].owner == login ==> DisbandedBut(gs - {n}, orig, todo - {n}, login)
    ensures orig[n].owner != login ==> DisbandedBut(gs[n := Evict(gs[n], login)], orig, todo - {n}, login)
  {
  }

  /** The disband loop starts with nothing done and ends with every
      community dropped or evicted from. */
  lemma DisbandBounds(gs: map<string, Group>, orig: map<string, Group>, login: string)
    ensures DisbandedBut(orig, orig, orig.Keys, login)
    ensures DisbandedBut(gs, orig, {}, login) ==> gs == Disbanded(orig, login)
  {
  }

  /** Progress of the purge loop: the accounts still in `todo` are as they
      were, every other one is purged. */
  ghost predicate PurgedBut(accts: map<string, Account>, orig: map<string, Account>, todo: set<string>, sender: string)
  {
    && accts.Keys == orig.Keys
    && todo <= orig.Keys
    && forall l :: l in accts ==> accts[l] == if l in todo then orig[l] else Unsent(orig[l], sender)
  }

  /** Purging one more account advances the purge loop. */
  lemma PurgeStep(accts: map<string, Account>, orig: map<string, Account>, todo: set<string>, l: string, sender: string)
    requires PurgedBut(accts, orig, todo, sender) && l in todo
    ensures PurgedBut(accts[l := Unsent(accts[l], sender)], orig, todo - {l}, sender)
  {
  }

  /** The purge loop starts with nothing purged and ends with everything
      purged. */
  lemma PurgeBounds(accts: map<string, Account>, orig: map<string, Account>, sender: string)
    ensures PurgedBut(orig, orig, orig.Keys, sender)
    ensures PurgedBut(accts, orig, {}, sender) ==> accts == Purged(orig, sender)
  {
  }

  /** After a removal every surviving community is still filed under its
      name, and neither lists the removed login as a member nor keeps a queue
      for it; no purged queue holds a broadcast of it, and the relation lists
      are untouched. */
  lemma RemovalLeavesNoTrace(gs: map<string, Group>, accts: map<string, Account>, login: string)
    requires forall n :: n in gs ==> Filed(gs[n], n)
    ensures forall n :: n in Disbanded(gs, login) <==> n in gs && gs[n].owner != login
    ensures forall n :: n in Disbanded(gs, login) ==>
      && Filed(Disbanded(gs, login)[n], n)
      && login !in Disbanded(gs, login)[n].members
      && login !in Disbanded(gs, login)[n].messages
      && Disbanded(gs, login)[n].observers == gs[n].observers
    ensures Purged(accts, login).Keys == accts.Keys
    ensures forall l, i :: l in Purged(accts, login) && 0 <= i < |Purged(accts, login)[l].messages| ==>
      !FromSender(Purged(accts, login)[l].messages[i], login)
    ensures forall l :: l in accts ==> Purged(accts, login)[l] == accts[l].(messages := Purged(accts, login)[l].messages)
    ensures forall l, m :: l in accts && m in accts[l].messages && !FromSender(m, login) ==> m in Purged(accts, login)[l].messages
  {
    forall n | n in Disbanded(gs, login)
      ensures Filed(Disbanded(gs, login)[n], n) && login !in Disbanded(gs, login)[n].members
    {
      EvictKeepsWellFormed(gs[n], login);
    }
  }

  class Facade {
    var users: map<string, Users>
    var sessions: map<string, string>
    var communities: map<string, Community>
    var sessionCounter: nat
    /** The value of every registered account, by login. */
    ghost var accounts: map<string, Account>
    /** The value of every community, by name. */
    ghost var groups: map<string, Group>

    /** Every account object is filed under its own login and holds the
        value `accounts` records; every recorded value keeps its relation
        lists free of duplicates. */
    ghost predicate UsersValid()
      reads this`users, this`accounts, users.Values
    {
      && users.Keys == accounts.Keys
      && (forall l :: l in users ==> users[l].login == l && users[l].View() == accounts[l])
      && (forall l :: l in accounts ==> Consistent(accounts[l]))
    }

    /** Every community object holds the value `groups` records, and every
        recorded value is filed under its own name. */
    ghost predicate CommunitiesValid()
      reads this`communities, this`groups, communities.Values
    {
      && communities.Keys == groups.Keys
      && (forall n :: n in communities ==> communities[n].View() == groups[n])
      && (forall n :: n in groups ==> Filed(groups[n], n))
    }

    /** The open sessions are the ones the counter guarantees. */
    ghost predicate SessionsValid()
      reads this`sessions, this`sessionCounter
    {
      Issuable(sessions, sessionCounter)
    }

    ghost predicate Valid()
      reads this, users.Values, communities.Values
    {
      && UsersValid()
      && CommunitiesValid()
      && SessionsValid()
    }

    /** The account invariant survives a step that changed at most the
        account object filed under `k`, recording its new value. */
    twostate lemma UsersRecoupled(k: string)
      requires old(UsersValid()) && users == old(users) && k in users
      requires accounts == old(accounts)[k := users[k].View()]
      requires Consistent(accounts[k])
      requires unchanged(users.Values - {users[k]})
      ensures UsersValid()
    {
      forall l | l in users && l != k
        ensures users[l].View() == accounts[l]
      {
        assert users[l] in users.Values - {users[k]};
      }
    }

    /** The account invariant survives a step that changed no account. */
    twostate lemma UsersKept()
      requires old(UsersValid()) && users == old(users) && accounts == old(accounts)
      requires unchanged(users.Values)
      ensures UsersValid()
    {
      forall l | l in users
        ensures users[l].View() == accounts[l]
      {
        assert users[l] in users.Values;
      }
    }

    /** The community invariant survives a step that changed at most the
        community filed under `n`, recording its new value. */
    twostate lemma CommunitiesRefiled(n: string)
      requires old(CommunitiesValid()) && communities == old(communities) && n in communities
      requires groups == old(groups)[n := communities[n].View()]
      requires Filed(groups[n], n)
      requires unchanged(communities.Values - {communities[n]})
      ensures CommunitiesValid()
    {
      forall m | m in communities && m != n
        ensures communities[m].View() == groups[m]
      {
        assert old(groups)[m].name == m;
        assert communities[m] in communities.Values - {communities[n]};
      }
    }

    /** The community invariant survives a step that changed no community. */
    twostate lemma CommunitiesKept()
      requires old(CommunitiesValid()) && communities == old(communities) && groups == old(groups)
      requires unchanged(communities.Values)
      ensures CommunitiesValid()
    {
      forall n | n in communities
        ensures communities[n].View() == groups[n]
      {
        assert communities[n] in communities.Values;
      }
    }

    /** The whole invariant survives a step that changed the account filed
        under `k` and nothing else. */
    twostate lemma AccountUpdated(k: string)
      requires old(Valid())
      requires sessions == old(sessions) && sessionCounter == old(sessionCounter)
      requires users == old(users) && k in users
      requires accounts == old(accounts)[k := users[k].View()]
      requires Consistent(accounts[k])
      requires unchanged(users.Values - {users[k]})
      requires communities == old(communities) && groups == old(groups)
      requires unchanged(communities.Values)
      ensures Valid()
    {
      UsersRecoupled(k);
      CommunitiesKept();
    }

    /** The whole invariant survives a step that changed the community filed
        under `n` and nothing else. */
    twostate lemma GroupUpdated(n: string)
      requires old(Valid())
      requires sessions == old(sessions) && sessionCounter == old(sessionCounter)
      requires users == old(users) && accounts == old(accounts)
      requires unchanged(users.Values)
      requires communities == old(communities) && n in communities
      requires groups == old(groups)[n := communities[n].View()]
      requires Filed(groups[n], n)
      requires unchanged(communities.Values - {communities[n]})
      ensures Valid()
    {
      UsersKept();
      CommunitiesRefiled(n);
    }

    /** The account invariant holds again once `accounts` records the
        broadcast every account object has received. */
    lemma UsersNotified(prior: map<string, Account>, observers: seq<Users>, message: string)
      requires users.Keys == prior.Keys
      requires forall l :: l in prior ==> Consistent(prior[l])
      requires forall l :: l in users ==>
        users[l].login == l && users[l].View() == Delivered(prior[l], message, Count(observers, users[l]))
      requires accounts == Notified(prior, message, Tally(observers, users))
      ensures UsersValid()
    {
      NotifiedKeepsConsistent(prior, message, Tally(observers, users));
    }

    // ---------------------------------------------------------------------
    // Single steps on one account or one community, each keeping the
    // invariant and recording the new value.

    /** `users.get(k).acceptFriendRequest(requester)` */
    method Accept(k: string, requester: string)
      requires Valid() && k in users
      modifies this`accounts, users[k]
      ensures Valid()
      ensures accounts == old(accounts)[k := Accepted(old(accounts)[k], requester)]
    {
      var u := users[k];
      u.AcceptFriendRequest(requester);
      accounts := accounts[k := u.View()];
      AccountUpdated(k);
    }

    /** `users.get(k).addFriend(friend)` */
    method Befriend(k: string, friend: string)
      requires Valid() && k in users
      modifies this`accounts, users[k]
      ensures Valid()
      ensures accounts == old(accounts)[k := WithFriend(old(accounts)[k], friend)]
    {
      var u := users[k];
      u.AddFriend(friend);
      accounts := accounts[k := u.View()];
      AccountUpdated(k);
    }

    /** `users.get(k).addFriendRequest(requester)` */
    method Request(k: string, requester: string)
      requires Valid() && k in users
      modifies this`accounts, users[k]
      ensures Valid()
      ensures accounts == old(accounts)[k := WithRequest(old(accounts)[k], requester)]
    {
      var u := users[k];
      u.AddFriendRequest(requester);
      accounts := accounts[k := u.View()];
      AccountUpdated(k);
    }

    /** `users.get(k).setName(name)` */
    method Rename(k: string, name: string)
      requires Valid() && k in users
      modifies this`accounts, users[k]
      ensures Valid()
      ensures accounts == old(accounts)[k := old(accounts)[k].(name := name)]
    {
      var u := users[k];
      u.SetName(name);
      accounts := accounts[k := u.View()];
      AccountUpdated(k);
    }

    /** `users.get(k).setAttribute(attribute, value)` */
    method Annotate(k: string, attribute: string, value: string)
      requires Valid() && k in users
      modifies this`accounts, users[k]
      ensures Valid()
      ensures var a := old(accounts)[k];
        accounts == old(accounts)[k := a.(attributes := a.attributes[attribute := value])]
    {
      var u := users[k];
      u.SetAttribute(attribute, value);
      accounts := accounts[k := u.View()];
      AccountUpdated(k);
    }

    /** `users.get(k).addMessage(message)` */
    method Deliver(k: string, message: string)
      requires Valid() && k in users
      modifies this`accounts, users[k]
      ensures Valid()
      ensures var a := old(accounts)[k];
        accounts == old(accounts)[k := a.(messages := a.messages + [message])]
    {
      var u := users[k];
      u.AddMessage(message);
      accounts := accounts[k := u.View()];
      AccountUpdated(k);
    }

    /** `users.get(k).addCommunity(community)` */
    method Enrol(k: string, community: string)
      requires Valid() && k in users
      modifies this`accounts, users[k]
      ensures Valid()
      ensures accounts == old(accounts)[k := WithCommunity(old(accounts)[k], community)]
    {
      var u := users[k];
      u.AddCommunity(community);
      accounts := accounts[k := u.View()];
      AccountUpdated(k);
    }

    /** `users.get(k).addIdol(idol)` */
    method RecordIdol(k: string, idol: string)
      requires Valid() && k in users
      modifies this`accounts, users[k]
      ensures Valid()
      ensures accounts == old(accounts)[k := WithIdol(old(accounts)[k], idol)]
    {
      var u := users[k];
      u.AddIdol(idol);
      accounts := accounts[k := u.View()];
      AccountUpdated(k);
    }

    /** `users.get(k).addCrush(crush)` */
    method RecordCrush(k: string, crush: string)
      requires Valid() && k in users
      modifies this`accounts, users[k]
      ensures Valid()
      ensures accounts == old(accounts)[k := WithCrush(old(accounts)[k], crush)]
    {
      var u := users[k];
      u.AddCrush(crush);
      accounts := accounts[k := u.View()];
      AccountUpdated(k);
    }

    /** `users.get(k).addEnemy(enemy)` */
    method RecordEnemy(k: string, enemy: string)
      requires Valid() && k in users
      modifies this`accounts, users[k]
      ensures Valid()
      ensures accounts == old(accounts)[k := WithEnemy(old(accounts)[k], enemy)]
    {
      var u := users[k];
      u.AddEnemy(enemy);
      accounts := accounts[k := u.View()];
      AccountUpdated(k);
    }

    /** `users.get(k).removeMessagesFrom(sender)` */
    method PurgeFrom(k: string, sender: string)
      requires Valid() && k in users
      modifies this`accounts, users[k]
      ensures Valid()
      ensures accounts == old(accounts)[k := Unsent(old(accounts)[k], sender)]
    {
      var u := users[k];
      u.RemoveMessagesFrom(sender);
      accounts := accounts[k := u.View()];
      AccountUpdated(k);
    }

    /** `community.addMember(login)` and `community.addObserver(user)`,
        keeping the whole invariant. */
    method Seat(n: string, login: string)
      requires Valid() && n in communities && login in users && login !in groups[n].members
      modifies this`groups, communities[n]
      ensures Valid()
      ensures groups == old(groups)[n := Admitted(old(groups)[n], login, old(users)[login])]
    {
      Admit(n, login);
      UsersKept();
    }

    /** The same two calls, stated over the community invariant alone;
        `Seat` carries the rest of the invariant across them. */
    method Admit(n: string, login: string)
      requires CommunitiesValid() && n in communities && login in users && login !in groups[n].members
      modifies this`groups, communities[n]
      ensures CommunitiesValid()
      ensures groups == old(groups)[n := Admitted(old(groups)[n], login, old(users)[login])]
    {
      var c := communities[n];
      var u := users[login];
      EnlistKeepsFiled(c.View(), n, login);
      SubscribeKeepsFiled(Enlisted(c.View(), login), n, u);
      c.AddMember(login);
      c.AddObserver(u);
      groups := groups[n := c.View()];
      CommunitiesRefiled(n);
    }

    /** `community.removeMember(login)` on a community `login` does not own. */
    method EvictFrom(n: string, login: string)
      requires Valid() && n in communities && groups[n].owner != login
      modifies this`groups, communities[n]
      ensures Valid()
      ensures groups == old(groups)[n := Evict(old(groups)[n], login)]
    {
      var c := communities[n];
      EvictKeepsWellFormed(c.View(), login);
      c.RemoveMember(login);
      groups := groups[n := c.View()];
      GroupUpdated(n);
    }

    /** `community.readMessage(login)` inside the `readMessage` loop, for a
        member of the community filed under `n`: a non-empty queue hands over
        its head; an empty one throws and changes nothing. */
    method ReadFrom(n: string, login: string) returns (m: Result<string>)
      requires Valid() && n in communities && login in groups[n].members
      modifies this`groups, communities[n]
      ensures Valid()
      ensures old(groups)[n].messages[login] == [] ==> m.Err? && groups == old(groups)
      ensures old(groups)[n].messages[login] != [] ==> m.Ok? && Took(old(groups), groups, login, n, m.value)
    {
      var c := communities[n];
      m := c.ReadMessage(login);
      if m.Ok? {
        PopKeepsFiled(old(groups)[n], n, login);
        groups := groups[n := c.View()];
        GroupUpdated(n);
      }
    }

    /** One turn of the `readMessage` loop: a read from the community filed
        under `n` if `login` is among its members. */
    method Visit(n: string, login: string) returns (m: Result<string>)
      requires Valid() && n in communities
      modifies this`groups, communities[n]
      ensures Valid()
      ensures m.Err? ==> groups == old(groups) && NoneFor(groups[n], login)
      ensures m.Ok? ==> Took(old(groups), groups, login, n, m.value)
    {
      m := Err(NoMessages);
      if login in communities[n].GetMembers() {
        m := ReadFrom(n, login);
      }
    }

    /** `community.addMessage(sender, message)` on the community filed under
        `n`: its member queues and the personal queue of every observer
        receive the broadcast. */
    method Broadcast(n: string, sender: string, message: string)
      requires Valid() && n in communities
      modifies this`accounts, this`groups, communities[n], communities[n].observers
      ensures Valid()
      ensures var g := old(groups)[n];
        var broadcast := CommunityMessage(sender, message);
        && groups == old(groups)[n := g.(messages := Fanout(g.messages, broadcast))]
        && accounts == Notified(old(accounts), broadcast, Tally(g.observers, users))
    {
      var community := communities[n];
      ghost var observers := groups[n].observers;
      community.AddMessage(sender, message);
      ghost var broadcast := CommunityMessage(sender, message);
      groups, accounts := groups[n := community.View()], Notified(accounts, broadcast, Tally(observers, users));
      forall l | l in users
        ensures users[l].login == l
        ensures users[l].View() == Delivered(old(accounts)[l], broadcast, Count(observers, users[l]))
      {
        if users[l] !in observers {
          assert old(users[l].messages) + Repeat(broadcast, 0) == old(users[l].messages);
        }
      }
      assert users.Keys == old(accounts).Keys;
      assert forall l :: l in old(accounts) ==> Consistent(old(accounts)[l]);
      UsersNotified(old(accounts), observers, broadcast);
      CommunitiesRefiled(n);
    }

    /** The last part of `addFriend`: if the target already holds a request
        from `login`, the target accepts it and `login` befriends the target;
        otherwise the target records a request from `login`. */
    method RequestFriendship(login: string, friendLogin: string)
      requires Valid() && login in users && friendLogin in users && login != friendLogin
      modifies this`accounts, users[login], users[friendLogin]
      ensures Valid()
      ensures accounts == Social.RequestFriendship(old(accounts), login, friendLogin)
    {
      var friend := users[friendLogin];
      if friend.HasPendingRequest(login) {
        Accept(friendLogin, login);
        Befriend(login, friendLogin);
      } else {
        Request(friendLogin, login);
      }
    }

    /** The mutation of `addUserToCommunity`: the community admits `login`
        and the account lists the community. */
    method Enter(n: string, login: string)
      requires Valid() && n in communities && login in users && login !in groups[n].members
      modifies this`accounts, this`groups, communities[n], users[login]
      ensures Valid()
      ensures groups == old(groups)[n := Admitted(old(groups)[n], login, old(users)[login])]
      ensures accounts == old(accounts)[login := WithCommunity(old(accounts)[login], n)]
    {
      Seat(n, login);
      Enrol(login, n);
    }

    /** The last part of `addCrush`: the crush is recorded; if it is mutual
        the notice is sent from the session id "Jackut", which fails. */
    method DeclareCrush(login: string, crushLogin: string) returns (r: Outcome)
      requires Valid() && login in users && crushLogin in users && login != crushLogin
      modifies this`accounts, users.Values
      ensures Valid()
      ensures accounts == old(accounts)[login := WithCrush(old(accounts)[login], crushLogin)]
      ensures login in old(accounts)[crushLogin].crushes ==> r == Fail(UserNotFound(NotRegistered))
      ensures login !in old(accounts)[crushLogin].crushes ==> r == Pass
    {
      var user := users[login];
      var crush := users[crushLogin];
      JackutIsNoSession(sessions, sessionCounter);
      RecordCrush(login, crushLogin);
      if crush.IsCrush(login) {
        r := SendMessage("Jackut", crushLogin, Social.CrushNotice(user.name));
        return;
      }
      r := Pass;
    }

    /** Files a new account under `login`. */
    method Register(login: string, password: string, name: string)
      requires Valid() && login !in users
      modifies this`users, this`accounts
      ensures Valid()
      ensures accounts == old(accounts)[login := NewAccount(login, password, name)]
    {
      var u := new Users(login, password, name);
      users := users[login := u];
      accounts := accounts[login := u.View()];
    }

    /** Files a new community under `name`, owned by `owner`. */
    method Found(name: string, description: string, owner: string)
      requires Valid() && name !in communities
      modifies this`communities, this`groups
      ensures Valid()
      ensures groups == old(groups)[name := Group(name, description, owner, [owner], map[owner := []], [])]
    {
      var community := new Community(name, description, owner);
      communities := communities[name := community];
      groups := groups[name := community.View()];
    }

    /** The accounts a community notifies: those it holds as observers,
        whether or not they are still registered. */
    function ObserversOf(name: string): (r: seq<Users>)
      reads this, communities.Values
      ensures name in communities ==> r == communities[name].observers
      ensures name !in communities ==> r == []
    {
      if name in communities then communities[name].observers else []
    }

    // ---------------------------------------------------------------------
    // The use-cases.

    /** An empty system (the data file is not read). */
    constructor ()
      ensures Valid()
      ensures accounts == map[] && groups == map[]
      ensures users == map[] && communities == map[] && sessions == map[] && sessionCounter == 0
    {
      users := map[];
      sessions := map[];
      communities := map[];
      sessionCounter := 0;
      accounts := map[];
      groups := map[];
    }

    /** Forgets every account, session and community and restarts the
        session counter. */
    method ResetSystem()
      requires Valid()
      modifies this
      ensures Valid()
      ensures accounts == map[] && groups == map[]
      ensures users == map[] && communities == map[] && sessions == map[] && sessionCounter == 0
    {
      users := map[];
      sessions := map[];
      communities := map[];
      sessionCounter := 0;
      accounts := map[];
      groups := map[];
    }

    /** Registers a new account. A blank login is refused before a blank
        password, and both before a login that is taken. */
    method CreateUser(login: string, password: string, name: string) returns (r: Outcome)
      requires Valid()
      modifies this`users, this`accounts
      ensures Valid()
      ensures IsBlank(login) ==> r == Fail(InvalidLogin(BadLogin))
      ensures !IsBlank(login) && IsBlank(password) ==> r == Fail(InvalidPassword(BadPassword))
      ensures !IsBlank(login) && !IsBlank(password) && login in old(accounts) ==> r == Fail(InvalidLogin(LoginTaken))
      ensures r.Pass? <==> !IsBlank(login) && !IsBlank(password) && login !in old(accounts)
      ensures r.Fail? ==> accounts == old(accounts)
      ensures r.Pass? ==> accounts == old(accounts)[login := NewAccount(login, password, name)]
    {
      if IsBlank(login) {
        return Fail(InvalidLogin(BadLogin));
      }
      if IsBlank(password) {
        return Fail(InvalidPassword(BadPassword));
      }
      if login in users {
        return Fail(InvalidLogin(LoginTaken));
      }
      Register(login, password, name);
      r := Pass;
    }

    /** Logs in: on matching credentials a new session id
        "session<counter>" is issued, distinct from every open one. */
    method OpenSession(login: string, password: string) returns (r: Result<string>)
      requires Valid()
      modifies this`sessions, this`sessionCounter
      ensures Valid()
      ensures r.Ok? <==>
        !IsBlank(login) && !IsBlank(password) && login in accounts && accounts[login].password == password
      ensures r.Err? ==>
        r.error == InvalidLogin(BadCredentials)
        && sessions == old(sessions) && sessionCounter == old(sessionCounter)
      ensures r.Ok? ==>
        && r.value !in old(sessions)
        && sessions == old(sessions)[r.value := login]
        && sessionCounter == old(sessionCounter) + 1
        && r.value == SessionId(sessionCounter)
    {
      if IsBlank(login) || IsBlank(password) || login !in users || users[login].password != password {
        return Err(InvalidLogin(BadCredentials));
      }
      OpenKeepsIssuable(sessions, sessionCounter, login);
      sessionCounter := sessionCounter + 1;
      var sessionId := SessionId(sessionCounter);
      sessions := sessions[sessionId := login];
      r := Ok(sessionId);
    }

    /** The login behind a session; an unknown id is an invalid session. */
    function GetSessionUser(sessionId: string): (r: Result<string>)
      reads this
      ensures r.Err? <==> sessionId !in sessions
      ensures r.Err? ==> r.error == UserNotFound(BadSession)
      ensures r.Ok? ==> r.value == sessions[sessionId]
    {
      if sessionId !in sessions then Err(UserNotFound(BadSession)) else Ok(sessions[sessionId])
    }

    /** The community filed under `name`. */
    function GetCommunity(name: string): (r: Result<Community>)
      reads this
      ensures r.Err? <==> name !in communities
      ensures r.Err? ==> r.error == CommunityNotFound
      ensures r.Ok? ==> r.value == communities[name]
    {
      if name !in communities then Err(CommunityNotFound) else Ok(communities[name])
    }

    /** `addFriend`, exactly as `Social.AddFriend` describes it. */
    method AddFriend(sessionId: string, friendLogin: string) returns (r: Outcome)
      requires Valid()
      requires Social.FriendCallable(accounts, sessions, sessionId, friendLogin)
      modifies this`accounts, users.Values
      ensures Valid()
      ensures var s := Social.AddFriend(old(accounts), sessions, sessionId, friendLogin);
        r == s.outcome && accounts == s.accounts
    {
      if friendLogin !in users {
        return Fail(UserNotFound(NotRegistered));
      }
      if sessionId !in sessions {
        return Fail(UserNotFound(NotRegistered));
      }
      var login := sessions[sessionId];
      if login == friendLogin {
        return Fail(Friendship(SelfFriend));
      }
      var user := users[login];
      if user.IsFriend(friendLogin) {
        return Fail(Friendship(AlreadyFriend));
      }
      if user.HasPendingRequest(friendLogin) {
        return Fail(Friendship(AwaitingAcceptance));
      }
      RequestFriendship(login, friendLogin);
      r := Pass;
    }

    /** Whether `friendLogin` is among the friends of `login`. */
    function IsFriend(login: string, friendLogin: string): (r: Result<bool>)
      requires Valid()
      reads this, users.Values, communities.Values
      ensures r.Err? <==> login !in accounts
      ensures r.Err? ==> r.error == UserNotFound(NotRegistered)
      ensures r.Ok? ==> (r.value <==> friendLogin in accounts[login].friends)
    {
      if login !in users then Err(UserNotFound(NotRegistered)) else Ok(users[login].IsFriend(friendLogin))
    }

    /** The friends of `login`, comma-separated; the list reads back from the
        string whenever it is non-empty and no login in it holds a comma. */
    function GetFriends(login: string): (r: Result<string>)
      requires Valid()
      reads this, users.Values, communities.Values
      ensures r.Err? <==> login !in accounts
      ensures r.Err? ==> r.error == UserNotFound(NotRegistered)
      ensures r.Ok? ==> var fs := accounts[login].friends;
        && (fs == [] ==> r.value == "")
        && (fs != [] && (forall i :: 0 <= i < |fs| ==> ',' !in fs[i]) ==> Split(r.value, ',') == fs)
    {
      if login !in users then Err(UserNotFound(NotRegistered))
      else
        var fs := users[login].friends;
        JoinedListReadable(fs, ',');
        Ok(Join(fs, ","))
    }

    /** A profile attribute of `login`. The key "name", in any letter case,
        is always reported as not filled, whatever the name is. */
    function GetUserAttribute(login: string, attribute: string): (r: Result<string>)
      requires Valid()
      reads this, users.Values, communities.Values
      ensures login !in accounts ==> r == Err(UserNotFound(NotRegistered))
      ensures login in accounts && EqualsIgnoreCase(attribute, "name") ==> r == Err(AttributeNotFilled)
      ensures login in accounts && !EqualsIgnoreCase(attribute, "name") ==>
        && (r.Ok? <==> attribute in accounts[login].attributes)
        && (r.Ok? ==> r.value == accounts[login].attributes[attribute])
        && (r.Err? ==> r.error == AttributeNotFilled)
    {
      if login !in users then Err(UserNotFound(NotRegistered))
      else if EqualsIgnoreCase(attribute, "name") then Err(AttributeNotFilled)
      else users[login].GetAttribute(attribute)
    }

    /** Edits the session's own profile: the key "name" (any letter case)
        renames the account, any other key is set as an attribute, which
        then reads back. */
    method EditProfile(sessionId: string, attribute: string, value: string) returns (r: Outcome)
      requires Valid()
      requires sessionId in sessions ==> sessions[sessionId] in accounts
      modifies this`accounts, users.Values
      ensures Valid()
      ensures r.Fail? <==> sessionId !in sessions
      ensures r.Fail? ==> r.error == UserNotFound(BadSession) && accounts == old(accounts)
      ensures r.Pass? && EqualsIgnoreCase(attribute, "name") ==>
        var login := sessions[sessionId];
        && accounts == old(accounts)[login := old(accounts)[login].(name := value)]
        && GetUserAttribute(login, attribute) == Err(AttributeNotFilled)
      ensures r.Pass? && !EqualsIgnoreCase(attribute, "name") ==>
        var login := sessions[sessionId];
        var a := old(accounts)[login];
        && accounts == old(accounts)[login := a.(attributes := a.attributes[attribute := value])]
        && GetUserAttribute(login, attribute) == Ok(value)
    {
      if sessionId !in sessions {
        return Fail(UserNotFound(BadSession));
      }
      var login := sessions[sessionId];
      if EqualsIgnoreCase(attribute, "name") {
        Rename(login, value);
      } else {
        Annotate(login, attribute, value);
      }
      r := Pass;
    }

    /** Direct message: appended raw, without the sender's name, to the
        recipient's personal queue. */
    method SendMessage(sessionId: string, recipientLogin: string, message: string) returns (r: Outcome)
      requires Valid()
      modifies this`accounts, users.Values
      ensures Valid()
      ensures sessionId !in sessions ==> r == Fail(UserNotFound(NotRegistered))
      ensures sessionId in sessions && sessions[sessionId] == recipientLogin ==> r == Fail(MessageRefused(SelfMessage))
      ensures sessionId in sessions && sessions[sessionId] != recipientLogin && recipientLogin !in accounts ==>
        r == Fail(UserNotFound(NotRegistered))
      ensures r.Pass? <==> sessionId in sessions && sessions[sessionId] != recipientLogin && recipientLogin in accounts
      ensures r.Fail? ==> accounts == old(accounts)
      ensures r.Pass? ==> var a := old(accounts)[recipientLogin];
        accounts == old(accounts)[recipientLogin := a.(messages := a.messages + [message])]
    {
      if sessionId !in sessions {
        return Fail(UserNotFound(NotRegistered));
      }
      var senderLogin := sessions[sessionId];
      if senderLogin == recipientLogin {
        return Fail(MessageRefused(SelfMessage));
      }
      if recipientLogin !in users {
        return Fail(UserNotFound(NotRegistered));
      }
      Deliver(recipientLogin, message);
      r := Pass;
    }

    /** A member's broadcast: every member's queue in the community receives
        "Mensagem de <sender>: <message>", and so does the personal queue of
        every observing account, once per registration as observer. */
    method SendMessageToCommunity(sessionId: string, communityName: string, message: string) returns (r: Outcome)
      requires Valid()
      modifies this`accounts, this`groups, communities.Values, ObserversOf(communityName)
      ensures Valid()
      ensures sessionId !in sessions ==> r == Fail(UserNotFound(NotRegistered))
      ensures sessionId in sessions && communityName !in old(groups) ==> r == Fail(CommunityNotFound)
      ensures (sessionId in sessions && communityName in old(groups)
               && sessions[sessionId] !in old(groups)[communityName].members) ==> r == Fail(UserNotInCommunity)
      ensures r.Pass? <==> sessionId in sessions && communityName in old(groups)
                           && sessions[sessionId] in old(groups)[communityName].members
      ensures r.Fail? ==> groups == old(groups) && accounts == old(accounts)
      ensures r.Pass? ==>
        var g := old(groups)[communityName];
        var broadcast := CommunityMessage(sessions[sessionId], message);
        && groups == old(groups)[communityName := g.(messages := Fanout(g.messages, broadcast))]
        && accounts == Notified(old(accounts), broadcast, Tally(g.observers, users))
    {
      if sessionId !in sessions {
        return Fail(UserNotFound(NotRegistered));
      }
      var sender := sessions[sessionId];
      var found := GetCommunity(communityName);
      if found.Err? {
        return Fail(found.error);
      }
      if sender !in found.value.GetMembers() {
        return Fail(UserNotInCommunity);
      }
      Broadcast(communityName, sender, message);
      r := Pass;
    }

    /** Reads the next community broadcast of the session's account: the
        head of its queue in some community where it is a member and the
        queue is non-empty (`source` names it; the source's map order picks
        which). Direct messages are never read here. */
    method ReadMessage(sessionId: string) returns (r: Result<string>, ghost source: string)
      requires Valid()
      modifies this`groups, communities.Values
      ensures Valid()
      ensures sessionId !in sessions ==> r == Err(UserNotFound(NotRegistered)) && groups == old(groups)
      ensures sessionId in sessions && r.Err? ==>
        && r.error == NoMessages
        && groups == old(groups)
        && forall n :: n in groups && sessions[sessionId] in groups[n].members ==>
             groups[n].messages[sessions[sessionId]] == []
      ensures r.Ok? ==> sessionId in old(sessions) && Took(old(groups), groups, old(sessions)[sessionId], source, r.value)
    {
      source := "";
      if sessionId !in sessions {
        return Err(UserNotFound(NotRegistered)), source;
      }
      r, source := Fetch(sessions[sessionId]);
    }

    /** The loop of `readMessage` over every community, in the map's order,
        for the account `login`. */
    method Fetch(login: string) returns (r: Result<string>, ghost source: string)
      requires Valid()
      modifies this`groups, communities.Values
      ensures Valid()
      ensures r.Err? ==>
        && r.error == NoMessages
        && groups == old(groups)
        && forall n :: n in groups && login in groups[n].members ==> groups[n].messages[login] == []
      ensures r.Ok? ==> Took(old(groups), groups, login, source, r.value)
    {
      source := "";
      var todo := communities.Keys;
      while todo != {}
        invariant todo <= communities.Keys
        invariant Valid()
        invariant groups == old(groups)
        invariant Drained(groups, todo, login)
        decreases todo
      {
        var n :| n in todo;
        var m := Visit(n, login);
        if m.Ok? {
          return m, n;
        }
        DrainStep(groups, todo, n, login);
        todo := todo - {n};
      }
      DrainedEverywhere(groups, login);
      r := Err(NoMessages);
    }

    /** Creates a community owned by the session's account. The owner becomes
        its only member, but the community is not added to the owner's list
        of communities and the owner is not made an observer. */
    method CreateCommunity(sessionId: string, name: string, description: string) returns (r: Outcome)
      requires Valid()
      modifies this`communities, this`groups
      ensures Valid()
      ensures name in old(groups) ==> r == Fail(CommunityAlreadyExists)
      ensures name !in old(groups) && sessionId !in sessions ==> r == Fail(UserNotFound(BadSession))
      ensures r.Pass? <==> name !in old(groups) && sessionId in sessions
      ensures r.Fail? ==> groups == old(groups)
      ensures r.Pass? ==> var owner := sessions[sessionId];
        groups == old(groups)[name := Group(name, description, owner, [owner], map[owner := []], [])]
    {
      if name in communities {
        return Fail(CommunityAlreadyExists);
      }
      var owner := GetSessionUser(sessionId);
      if owner.Err? {
        return Fail(owner.error);
      }
      Found(name, description, owner.value);
      r := Pass;
    }

    /** Joins the session's account to a community: appended as member with
        an empty queue, registered as observer, and the community's name
        added to the account's list. */
    method AddUserToCommunity(sessionId: string, communityName: string) returns (r: Outcome)
      requires Valid()
      requires (sessionId in sessions && communityName in groups
                && sessions[sessionId] !in groups[communityName].members) ==> sessions[sessionId] in accounts
      modifies this`accounts, this`groups, communities.Values, users.Values
      ensures Valid()
      ensures sessionId !in sessions ==> r == Fail(UserNotFound(NotRegistered))
      ensures sessionId in sessions && communityName !in old(groups) ==> r == Fail(CommunityNotFound)
      ensures (sessionId in sessions && communityName in old(groups)
               && sessions[sessionId] in old(groups)[communityName].members) ==> r == Fail(UserAlreadyInCommunity)
      ensures r.Pass? <==> sessionId in sessions && communityName in old(groups)
                           && sessions[sessionId] !in old(groups)[communityName].members
      ensures r.Fail? ==> groups == old(groups) && accounts == old(accounts)
      ensures r.Pass? ==>
        var login := sessions[sessionId];
        && groups == old(groups)[communityName := Admitted(old(groups)[communityName], login, old(users)[login])]
        && accounts == old(accounts)[login := WithCommunity(old(accounts)[login], communityName)]
    {
      if sessionId !in sessions {
        return Fail(UserNotFound(NotRegistered));
      }
      var userLogin := sessions[sessionId];
      var found := GetCommunity(communityName);
      if found.Err? {
        return Fail(found.error);
      }
      if userLogin in found.value.GetMembers() {
        return Fail(UserAlreadyInCommunity);
      }
      Enter(communityName, userLogin);
      r := Pass;
    }

    /** The communities of `login` in braces, comma-separated ("{}" when
        there are none). */
    function GetUserCommunities(login: string): (r: Result<string>)
      requires Valid()
      reads this, users.Values, communities.Values
      ensures r.Err? <==> login !in accounts
      ensures r.Err? ==> r.error == UserNotFound(NotRegistered)
      ensures r.Ok? ==> var cs := accounts[login].communities;
        && |r.value| >= 2 && r.value[0] == '{' && r.value[|r.value| - 1] == '}'
        && (cs == [] ==> r.value == "{}")
        && (cs != [] && (forall i :: 0 <= i < |cs| ==> ',' !in cs[i]) ==> Split(r.value[1..|r.value| - 1], ',') == cs)
    {
      if login !in users then Err(UserNotFound(NotRegistered))
      else
        var cs := users[login].communities;
        if cs == [] then Ok("{}")
        else
          JoinedListReadable(cs, ',');
          var s := "{" + Join(cs, ",") + "}";
          assert s[1..|s| - 1] == Join(cs, ",");
          Ok(s)
    }

    function GetCommunityDescription(name: string): (r: Result<string>)
      reads this
      ensures r.Err? <==> name !in communities
      ensures r.Err? ==> r.error == CommunityNotFound
      ensures r.Ok? ==> r.value == communities[name].description
    {
      var found := GetCommunity(name);
      if found.Err? then Err(found.error) else Ok(found.value.description)
    }

    function GetCommunityOwner(name: string): (r: Result<string>)
      reads this
      ensures r.Err? <==> name !in communities
      ensures r.Err? ==> r.error == CommunityNotFound
      ensures r.Ok? ==> r.value == communities[name].owner
    {
      var found := GetCommunity(name);
      if found.Err? then Err(found.error) else Ok(found.value.owner)
    }

    /** The members of a community in braces, comma-separated, in joining
        order; the owner is always listed. */
    function GetCommunityMembers(name: string): (r: Result<string>)
      requires Valid()
      reads this, users.Values, communities.Values
      ensures r.Err? <==> name !in groups
      ensures r.Err? ==> r.error == CommunityNotFound
      ensures r.Ok? ==> var ms := groups[name].members;
        && ms != []
        && |r.value| >= 2 && r.value[0] == '{' && r.value[|r.value| - 1] == '}'
        && ((forall i :: 0 <= i < |ms| ==> ',' !in ms[i]) ==> Split(r.value[1..|r.value| - 1], ',') == ms)
    {
      var found := GetCommunity(name);
      if found.Err? then Err(found.error)
      else
        var ms := found.value.members;
        JoinedListReadable(ms, ',');
        var s := "{" + Join(ms, ",") + "}";
        assert s[1..|s| - 1] == Join(ms, ",");
        Ok(s)
    }

    /** `addIdol`, exactly as `Social.AddIdol` describes it. */
    method AddIdol(sessionId: string, idolLogin: string) returns (r: Outcome)
      requires Valid()
      requires Social.TargetCallable(accounts, sessions, sessionId, idolLogin)
      modifies this`accounts, users.Values
      ensures Valid()
      ensures var s := Social.AddIdol(old(accounts), sessions, sessionId, idolLogin);
        r == s.outcome && accounts == s.accounts
    {
      var found := GetSessionUser(sessionId);
      if found.Err? {
        return Fail(found.error);
      }
      var userLogin := found.value;
      if userLogin == idolLogin {
        return Fail(AutoIdol);
      }
      var user := users[userLogin];
      var idol := users[idolLogin];
      if user.IsEnemy(idolLogin) || idol.IsEnemy(userLogin) {
        return Fail(InteractionWithEnemy(idol.name));
      }
      if user.IsIdol(idolLogin) {
        return Fail(IdolAlreadyExists);
      }
      RecordIdol(userLogin, idolLogin);
      r := Pass;
    }

    /** `addCrush`, exactly as `Social.AddCrush` describes it: on a mutual
        crush the notice is sent from the session id "Jackut", and that call
        is what fails. */
    method AddCrush(sessionId: string, crushLogin: string) returns (r: Outcome)
      requires Valid()
      requires Social.TargetCallable(accounts, sessions, sessionId, crushLogin)
      modifies this`accounts, users.Values
      ensures Valid()
      ensures "Jackut" !in sessions
      ensures var s := Social.AddCrush(old(accounts), sessions, sessionId, crushLogin);
        r == s.outcome && accounts == s.accounts
    {
      JackutIsNoSession(sessions, sessionCounter);
      var found := GetSessionUser(sessionId);
      if found.Err? {
        return Fail(found.error);
      }
      var userLogin := found.value;
      if userLogin == crushLogin {
        return Fail(AutoCrush);
      }
      var user := users[userLogin];
      var crush := users[crushLogin];
      if user.IsEnemy(crushLogin) || crush.IsEnemy(userLogin) {
        return Fail(InteractionWithEnemy(crush.name));
      }
      if user.IsCrush(crushLogin) {
        return Fail(CrushAlreadyExists);
      }
      r := DeclareCrush(userLogin, crushLogin);
    }

    /** `addEnemy`, exactly as `Social.AddEnemy` describes it. */
    method AddEnemy(sessionId: string, enemyLogin: string) returns (r: Outcome)
      requires Valid()
      requires sessionId in sessions && sessions[sessionId] != enemyLogin ==> sessions[sessionId] in accounts
      modifies this`accounts, users.Values
      ensures Valid()
      ensures var s := Social.AddEnemy(old(accounts), sessions, sessionId, enemyLogin);
        r == s.outcome && accounts == s.accounts
    {
      var found := GetSessionUser(sessionId);
      if found.Err? {
        return Fail(found.error);
      }
      var userLogin := found.value;
      if userLogin == enemyLogin {
        return Fail(AutoEnemy);
      }
      var user := users[userLogin];
      if user.IsEnemy(enemyLogin) {
        return Fail(EnemyAlreadyExists);
      }
      RecordEnemy(userLogin, enemyLogin);
      r := Pass;
    }

    /** `communities.remove(n)` */
    method Drop(n: string)
      requires Valid() && n in communities
      modifies this`communities, this`groups
      ensures Valid()
      ensures communities == old(communities) - {n} && groups == old(groups) - {n}
    {
      communities := communities - {n};
      groups := groups - {n};
      assert UsersValid() && SessionsValid();
      forall m | m in communities
        ensures communities[m].View() == groups[m]
      {
        assert communities[m] in old(communities).Values;
      }
    }

    /** One turn of the first loop of `removeUser`: the community filed under
        `n` is dropped from the registry when `login` owns it, and evicts
        `login` otherwise. */
    method DisbandOne(n: string, login: string)
      requires Valid() && n in communities
      modifies this`communities, this`groups, communities[n]
      ensures Valid()
      ensures old(groups)[n].owner == login ==>
        communities == old(communities) - {n} && groups == old(groups) - {n}
      ensures old(groups)[n].owner != login ==>
        communities == old(communities) && groups == old(groups)[n := Evict(old(groups)[n], login)]
    {
      if communities[n].owner == login {
        Drop(n);
      } else {
        EvictFrom(n, login);
      }
    }

    /** The first loop of `removeUser`: every community the login owns is
        dropped from the registry, and every other one evicts it. */
    method Disband(login: string)
      requires Valid()
      modifies this`communities, this`groups, communities.Values
      ensures Valid()
      ensures groups == Disbanded(old(groups), login)
    {
      DisbandBounds(groups, groups, login);
      var todo := communities.Keys;
      while todo != {}
        invariant Valid()
        invariant DisbandedBut(groups, old(groups), todo, login)
        invariant forall n :: n in communities ==> n in old(communities) && communities[n] == old(communities)[n]
        decreases todo
      {
        var n :| n in todo;
        DisbandStep(groups, old(groups), todo, n, login);
        todo := todo - {n};
        DisbandOne(n, login);
      }
      DisbandBounds(groups, old(groups), login);
    }

    /** The second loop of `removeUser`: the broadcasts of `sender` leave
        every registered account's personal queue. */
    method PurgeAll(sender: string)
      requires Valid()
      modifies this`accounts, users.Values
      ensures Valid()
      ensures accounts == Purged(old(accounts), sender)
    {
      PurgeBounds(accounts, accounts, sender);
      var todo := users.Keys;
      while todo != {}
        invariant Valid()
        invariant PurgedBut(accounts, old(accounts), todo, sender)
        decreases todo
      {
        var l :| l in todo;
        PurgeStep(accounts, old(accounts), todo, l, sender);
        todo := todo - {l};
        PurgeFrom(l, sender);
      }
      PurgeBounds(accounts, old(accounts), sender);
    }

    /** Both loops of `removeUser`. */
    method Erase(login: string)
      requires Valid()
      modifies this`communities, this`groups, this`accounts, users.Values, communities.Values
      ensures Valid()
      ensures groups == Disbanded(old(groups), login) && accounts == Purged(old(accounts), login)
      ensures users == old(users) && sessions == old(sessions)
    {
      Disband(login);
      PurgeAll(login);
    }

    /** `users.remove(login)` and `sessions.remove(sessionId)` */
    method Forget(login: string, sessionId: string)
      requires Valid()
      modifies this`users, this`accounts, this`sessions
      ensures Valid()
      ensures users == old(users) - {login} && accounts == old(accounts) - {login}
      ensures sessions == old(sessions) - {sessionId}
    {
      users := users - {login};
      accounts := accounts - {login};
      sessions := sessions - {sessionId};
      assert CommunitiesValid();
      forall l | l in users
        ensures users[l].View() == accounts[l]
      {
        assert users[l] in old(users).Values;
      }
    }

    /** Removes the session's account: its communities are dropped, it leaves
        every other community, its broadcasts leave every personal queue,
        and its account and this session (only this one) are gone. Friend,
        idol, crush and enemy lists elsewhere still name it, and community
        observer lists still hold its object. */
    method RemoveUser(sessionId: string) returns (r: Outcome)
      requires Valid()
      modifies this`users, this`accounts, this`communities, this`groups, this`sessions
      modifies users.Values, communities.Values
      ensures Valid()
      ensures r.Fail? <==> sessionId !in old(sessions)
      ensures r.Fail? ==>
        && r.error == UserNotFound(NotRegistered)
        && accounts == old(accounts) && groups == old(groups) && sessions == old(sessions)
      ensures r.Pass? ==>
        var login := old(sessions)[sessionId];
        && groups == Disbanded(old(groups), login)
        && accounts == Purged(old(accounts), login) - {login}
        && sessions == old(sessions) - {sessionId}
    {
      if sessionId !in sessions {
        return Fail(UserNotFound(NotRegistered));
      }
      var userLogin := sessions[sessionId];
      Erase(userLogin);
      Forget(userLogin, sessionId);
      r := Pass;
    }
  }
}
