/** A community (`Community.java`): a name, a description and an owner, an
    ordered member list with one FIFO queue per member, and the accounts that
    observe its broadcasts. */
module Communities {
  import opened Lists
  import opened Text
  import opened Errors
  import opened Accounts

  /** The value of a community at one moment. Observers are the account
      objects themselves: an account that leaves the system stays an
      observer. */
  datatype Group = Group(
    name: string,
    description: string,
    owner: string,
    members: seq<string>,
    messages: map<string, seq<string>>,
    observers: seq<Users>)

  /** The member list has no duplicates and the queues belong exactly to the
      members. */
  ghost predicate WellFormed(g: Group)
  {
    && NoDup(g.members)
    && (forall m :: m in g.messages <==> m in g.members)
  }

  /** Every queue with `message` appended at its tail. */
  function Fanout(queues: map<string, seq<string>>, message: string): (r: map<string, seq<string>>)
    ensures r.Keys == queues.Keys
    ensures forall m :: m in r ==> r[m] == queues[m] + [message]
  {
    map m | m in queues :: queues[m] + [message]
  }

  /** Progress of the member loop of `addMessage`: the queues of the members
      in `done` have received `message`, the others not yet. */
  ghost predicate FannedOut(queues: map<string, seq<string>>, orig: map<string, seq<string>>, done: seq<string>, message: string)
  {
    && queues.Keys == orig.Keys
    && forall m :: m in queues ==> queues[m] == if m in done then orig[m] + [message] else orig[m]
  }

  /** Appending to the queue of the next member advances the loop. */
  lemma FanoutStep(queues: map<string, seq<string>>, orig: map<string, seq<string>>, members: seq<string>, i: nat, message: string)
    requires NoDup(members) && i < |members| && members[i] in queues
    requires FannedOut(queues, orig, members[..i], message)
    ensures FannedOut(queues[members[i] := queues[members[i]] + [message]], orig, members[..i + 1], message)
  {
    assert members[..i + 1] == members[..i] + [members[i]];
  }

  /** The loop starts with no queue served and ends with all of them. */
  lemma FanoutBounds(queues: map<string, seq<string>>, orig: map<string, seq<string>>, members: seq<string>, message: string)
    ensures FannedOut(orig, orig, [], message)
    ensures FannedOut(queues, orig, members[..|members|], message) && (forall m :: m in orig ==> m in members) ==>
      queues == Fanout(orig, message)
  {
    assert members[..|members|] == members;
  }

  /** `g` once the newcomer `member` is appended to its members with an
      empty queue. */
  function Enlisted(g: Group, member: string): Group
  {
    g.(members := g.members + [member], messages := g.messages[member := []])
  }

  /** `g` once the account object `u` is appended to its observers. */
  function Subscribed(g: Group, u: Users): Group
  {
    g.(observers := g.observers + [u])
  }

  /** `g` after `member` has read the head of its queue. */
  function Pop(g: Group, member: string): (r: Group)
    requires member in g.messages && g.messages[member] != []
    ensures r.members == g.members && r.observers == g.observers
    ensures r.messages.Keys == g.messages.Keys
    ensures [g.messages[member][0]] + r.messages[member] == g.messages[member]
    ensures forall m :: m in g.messages && m != member ==> r.messages[m] == g.messages[m]
  {
    g.(messages := g.messages[member := g.messages[member][1..]])
  }

  /** `g` after `login` has been evicted: gone from the member list together
      with its queue; a login that is not a member leaves `g` as it was. */
  function Evict(g: Group, login: string): (r: Group)
    ensures r.name == g.name && r.description == g.description && r.owner == g.owner
    ensures r.observers == g.observers
    ensures |r.members| == if login in g.members then |g.members| - 1 else |g.members|
    ensures forall m :: m in r.members ==> m in g.members
    ensures forall m :: m in g.members && m != login ==> m in r.members
    ensures login in g.members ==> login !in r.messages
    ensures forall m :: m in g.messages && m != login ==> m in r.messages && r.messages[m] == g.messages[m]
    ensures login !in g.members ==> r == g
  {
    if login in g.members
    then g.(members := RemoveFirst(g.members, login), messages := g.messages - {login})
    else g
  }

  /** Eviction keeps a community well formed, and removes exactly the evicted
      login from its members. */
  lemma EvictKeepsWellFormed(g: Group, login: string)
    requires WellFormed(g)
    ensures WellFormed(Evict(g, login))
    ensures forall m :: m in Evict(g, login).members <==> m in g.members && m != login
    ensures Evict(g, login).name == g.name && Evict(g, login).owner == g.owner
    ensures Evict(g, login).observers == g.observers
  {
    RemoveFirstNoDup(g.members, login);
  }

  class Community {
    const name: string
    const description: string
    const owner: string
    var members: seq<string>
    var messages: map<string, seq<string>>
    var observers: seq<Users>

    ghost function View(): Group
      reads this
    {
      Group(name, description, owner, members, messages, observers)
    }

    ghost predicate Valid()
      reads this
    {
      WellFormed(View())
    }

    /** A new community holds its owner as only member, with an empty queue,
        and has no observers. */
    constructor (name: string, description: string, owner: string)
      ensures Valid()
      ensures View() == Group(name, description, owner, [owner], map[owner := []], [])
    {
      this.name := name;
      this.description := description;
      this.owner := owner;
      members := [owner];
      messages := map[owner := []];
      observers := [];
    }

    function GetMembers(): (r: seq<string>)
      reads this
      ensures r == View().members
    {
      members
    }

    /** A newcomer is appended with a fresh empty queue; an existing member
        keeps its place and its queue. */
    method AddMember(member: string)
      requires Valid()
      modifies this
      ensures Valid()
      ensures member in old(members) ==> View() == old(View())
      ensures member !in old(members) ==> View() == Enlisted(old(View()), member)
    {
      if member !in members {
        members := members + [member];
        messages := messages[member := []];
      }
    }

    method AddObserver(observer: Users)
      modifies this
      ensures View() == Subscribed(old(View()), observer)
    {
      observers := observers + [observer];
    }

    method RemoveObserver(observer: Users)
      modifies this
      ensures View() == old(View()).(observers := RemoveFirst(old(observers), observer))
    {
      observers := RemoveFirst(observers, observer);
    }

    /** Every observer's personal queue receives the message once per time it
        is listed; the community itself does not change. */
    method NotifyObservers(message: string)
      modifies observers
      ensures forall u :: u in old(observers) ==>
        u.View() == Delivered(old(u.View()), message, Count(observers, u))
    {
      var i := 0;
      while i < |observers|
        invariant 0 <= i <= |observers|
        invariant forall u :: u in observers ==>
          u.View() == Delivered(old(u.View()), message, Count(observers[..i], u))
      {
        var o := observers[i];
        o.Update(message);
        forall u | u in observers
          ensures u.View() == Delivered(old(u.View()), message, Count(observers[..i + 1], u))
        {
          assert observers[..i + 1] == observers[..i] + [o];
          CountAppend(observers[..i], o, u);
          if u == o {
            var a := old(u.View());
            var c := Count(observers[..i], u);
            assert a.messages + Repeat(message, c + 1) == (a.messages + Repeat(message, c)) + [message];
          }
        }
        i := i + 1;
      }
      assert observers[..i] == observers;
    }

    /** A broadcast is formatted once, handed to every observer, and appended
        to the queue of every current member, the sender included. */
    method AddMessage(sender: string, content: string)
      requires Valid()
      modifies this, observers
      ensures Valid()
      ensures View() == old(View()).(messages := Fanout(old(messages), CommunityMessage(sender, content)))
      ensures forall u :: u in old(observers) ==>
        u.View() == Delivered(old(u.View()), CommunityMessage(sender, content), Count(old(observers), u))
    {
      var message := CommunityMessage(sender, content);
      NotifyObservers(message);
      Enqueue(message);
    }

    /** The loop of `addMessage` over the members: each member's queue
        receives the message at its tail, once. */
    method Enqueue(message: string)
      requires Valid()
      modifies this
      ensures Valid()
      ensures View() == old(View()).(messages := Fanout(old(messages), message))
    {
      FanoutBounds(messages, messages, [], message);
      var i := 0;
      while i < |members|
        invariant 0 <= i <= |members|
        invariant View() == old(View()).(messages := messages)
        invariant FannedOut(messages, old(messages), members[..i], message)
      {
        FanoutStep(messages, old(messages), members, i, message);
        messages := messages[members[i] := messages[members[i]] + [message]];
        i := i + 1;
      }
      FanoutBounds(messages, old(messages), members, message);
    }

    /** Pops the head of one member's queue; a member without messages, or a
        login that is not a member, makes it throw without changing anything. */
    method ReadMessage(member: string) returns (r: Result<string>)
      modifies this
      ensures member !in old(messages) || old(messages)[member] == [] ==>
        r == Err(NoMessages) && unchanged(this)
      ensures member in old(messages) && old(messages)[member] != [] ==>
        r == Ok(old(messages)[member][0]) && View() == Pop(old(View()), member)
    {
      if member !in messages || messages[member] == [] {
        return Err(NoMessages);
      }
      r := Ok(messages[member][0]);
      messages := messages[member := messages[member][1..]];
    }

    /** Drops a member and its queue; a login that is not a member changes
        nothing. */
    method RemoveMember(memberLogin: string)
      requires Valid()
      modifies this
      ensures Valid()
      ensures View() == Evict(old(View()), memberLogin)
      ensures memberLogin !in members
    {
      EvictKeepsWellFormed(View(), memberLogin);
      if memberLogin in members {
        members := RemoveFirst(members, memberLogin);
        messages := messages - {memberLogin};
      }
    }
  }

  /** A broadcast reaches the owner and a member who joined before it, but
      not a login that never joined. */
  method BroadcastReachesMembers(owner: string, bob: string, carol: string, content: string)
    returns (toOwner: Result<string>, toBob: Result<string>, toCarol: Result<string>)
    requires owner != bob && carol != owner && carol != bob
    ensures toOwner == Ok(CommunityMessage(owner, content))
    ensures toBob == Ok(CommunityMessage(owner, content))
    ensures toCarol == Err(NoMessages)
  {
    var c := new Community("C", "", owner);
    c.AddMember(bob);
    c.AddMessage(owner, content);
    toOwner := c.ReadMessage(owner);
    toBob := c.ReadMessage(bob);
    toCarol := c.ReadMessage(carol);
  }

  /** A member who joins after a broadcast does not receive it. */
  method LateMemberMissesBroadcast(owner: string, late: string, content: string)
    returns (toLate: Result<string>)
    requires late != owner
    ensures toLate == Err(NoMessages)
  {
    var c := new Community("C", "", owner);
    c.AddMessage(owner, content);
    c.AddMember(late);
    toLate := c.ReadMessage(late);
  }

  /** Each member reads the broadcasts in the order they were sent. */
  method BroadcastsReadInOrder(owner: string, member: string, first: string, second: string)
    returns (r1: Result<string>, r2: Result<string>, r3: Result<string>)
    ensures r1 == Ok(CommunityMessage(owner, first))
    ensures r2 == Ok(CommunityMessage(member, second))
    ensures r3 == Err(NoMessages)
  {
    var c := new Community("C", "", owner);
    c.AddMember(member);
    c.AddMessage(owner, first);
    c.AddMessage(member, second);
    r1 := c.ReadMessage(member);
    r2 := c.ReadMessage(member);
    r3 := c.ReadMessage(member);
  }
}
