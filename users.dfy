/** One account of the social network (`Users.java`): its relation lists,
    kept free of duplicates, its personal FIFO message queue and its profile
    attributes. */
module Accounts {
  import opened Lists
  import opened Text
  import opened Errors

  /** The value of an account at one moment. */
  datatype Account = Account(
    login: string,
    password: string,
    name: string,
    friends: seq<string>,
    messages: seq<string>,
    attributes: map<string, string>,
    pending: seq<string>,
    communities: seq<string>,
    idols: seq<string>,
    crushes: seq<string>,
    enemies: seq<string>)

  /** An account as it is created: every list, the queue and the attribute
      map empty. */
  function NewAccount(login: string, password: string, name: string): (a: Account)
    ensures a.login == login && a.password == password && a.name == name
    ensures a.friends == a.pending == a.idols == a.crushes == a.enemies == a.communities == []
    ensures a.messages == [] && a.attributes == map[]
  {
    Account(login, password, name, [], [], map[], [], [], [], [], [])
  }

  /** Every relation list of the account is duplicate-free. */
  ghost predicate Consistent(a: Account)
  {
    && NoDup(a.friends)
    && NoDup(a.pending)
    && NoDup(a.communities)
    && NoDup(a.idols)
    && NoDup(a.crushes)
    && NoDup(a.enemies)
  }

  /** `a` with `friend` among its friends. */
  function WithFriend(a: Account, friend: string): (r: Account)
    ensures r == a.(friends := r.friends)
    ensures forall x :: x in r.friends <==> x in a.friends || x == friend
    ensures Consistent(a) ==> Consistent(r)
  {
    a.(friends := Insert(a.friends, friend))
  }

  /** `a` holding a friend request from `requester`. */
  function WithRequest(a: Account, requester: string): (r: Account)
    ensures r == a.(pending := r.pending)
    ensures forall x :: x in r.pending <==> x in a.pending || x == requester
    ensures Consistent(a) ==> Consistent(r)
  {
    a.(pending := Insert(a.pending, requester))
  }

  /** `a` after accepting the request of `requester`: the request becomes a
      friendship; without such a request nothing changes. */
  function Accepted(a: Account, requester: string): (r: Account)
    ensures Consistent(a) ==> Consistent(r)
    ensures Consistent(a) && requester in a.pending ==>
      && (forall x :: x in r.pending <==> x in a.pending && x != requester)
      && r == WithFriend(a, requester).(pending := r.pending)
    ensures requester !in a.pending ==> r == a
  {
    if requester in a.pending then
      var r := WithFriend(a, requester).(pending := RemoveFirst(a.pending, requester));
      assert Consistent(a) ==> Consistent(r) && forall x :: x in r.pending <==> x in a.pending && x != requester by {
        if Consistent(a) {
          RemoveFirstNoDup(a.pending, requester);
        }
      }
      r
    else a
  }

  /** `a` listing `community` among its communities. */
  function WithCommunity(a: Account, community: string): (r: Account)
    ensures r == a.(communities := r.communities)
    ensures forall x :: x in r.communities <==> x in a.communities || x == community
    ensures Consistent(a) ==> Consistent(r)
  {
    a.(communities := Insert(a.communities, community))
  }

  /** `a` no longer listing `community`; the other communities keep their
      order (`RemoveFirstKeepsOrder`). */
  function WithoutCommunity(a: Account, community: string): (r: Account)
    ensures r == a.(communities := r.communities)
    ensures Consistent(a) ==> Consistent(r) && forall x :: x in r.communities <==> x in a.communities && x != community
  {
    var r := a.(communities := RemoveFirst(a.communities, community));
    assert Consistent(a) ==> Consistent(r) && forall x :: x in r.communities <==> x in a.communities && x != community by {
      if Consistent(a) {
        RemoveFirstNoDup(a.communities, community);
      }
    }
    r
  }

  /** `a` with `idol` among its idols. */
  function WithIdol(a: Account, idol: string): (r: Account)
    ensures r == a.(idols := r.idols)
    ensures forall x :: x in r.idols <==> x in a.idols || x == idol
    ensures Consistent(a) ==> Consistent(r)
  {
    a.(idols := Insert(a.idols, idol))
  }

  /** `a` with `crush` among its crushes. */
  function WithCrush(a: Account, crush: string): (r: Account)
    ensures r == a.(crushes := r.crushes)
    ensures forall x :: x in r.crushes <==> x in a.crushes || x == crush
    ensures Consistent(a) ==> Consistent(r)
  {
    a.(crushes := Insert(a.crushes, crush))
  }

  /** `a` with `enemy` among its enemies. */
  function WithEnemy(a: Account, enemy: string): (r: Account)
    ensures r == a.(enemies := r.enemies)
    ensures forall x :: x in r.enemies <==> x in a.enemies || x == enemy
    ensures Consistent(a) ==> Consistent(r)
  {
    a.(enemies := Insert(a.enemies, enemy))
  }

  /** `a` after `times` copies of `message` have been queued. */
  function Delivered(a: Account, message: string, times: nat): Account
  {
    a.(messages := a.messages + Repeat(message, times))
  }

  /** `a` with every queued broadcast of `sender` dropped; what remains
      keeps its order. */
  function Unsent(a: Account, sender: string): (r: Account)
    ensures r == a.(messages := r.messages)
    ensures |r.messages| <= |a.messages|
    ensures forall i :: 0 <= i < |r.messages| ==> r.messages[i] in a.messages && !FromSender(r.messages[i], sender)
    ensures forall m :: m in a.messages && !FromSender(m, sender) ==> m in r.messages
    ensures Consistent(a) ==> Consistent(r)
  {
    a.(messages := WithoutSender(a.messages, sender))
  }

  class Users {
    const login: string
    const password: string
    var name: string
    var friends: seq<string>
    var messages: seq<string>
    var attributes: map<string, string>
    var pendingFriendRequests: seq<string>
    var communities: seq<string>
    var idols: seq<string>
    var crushes: seq<string>
    var enemies: seq<string>

    ghost function View(): Account
      reads this
    {
      Account(login, password, name, friends, messages, attributes,
              pendingFriendRequests, communities, idols, crushes, enemies)
    }

    constructor (login: string, password: string, name: string)
      ensures View() == NewAccount(login, password, name)
    {
      this.login := login;
      this.password := password;
      this.name := name;
      friends := [];
      messages := [];
      attributes := map[];
      pendingFriendRequests := [];
      communities := [];
      idols := [];
      crushes := [];
      enemies := [];
    }

    method AddFriend(friend: string)
      modifies this
      ensures View() == WithFriend(old(View()), friend)
    {
      if friend !in friends {
        friends := friends + [friend];
      }
    }

    /** Whether `friend` is among the account's friends. */
    predicate IsFriend(friend: string): (r: bool)
      reads this
      ensures r <==> friend in View().friends
    {
      friend in friends
    }

    method AddFriendRequest(friend: string)
      modifies this
      ensures View() == WithRequest(old(View()), friend)
    {
      if friend !in pendingFriendRequests {
        pendingFriendRequests := pendingFriendRequests + [friend];
      }
    }

    /** Whether a friend request from `friend` is pending on the account. */
    predicate HasPendingRequest(friend: string): (r: bool)
      reads this
      ensures r <==> friend in View().pending
    {
      friend in pendingFriendRequests
    }

    /** A pending requester moves from the pending list to the friends;
        anybody else leaves the account as it was. */
    method AcceptFriendRequest(friend: string)
      modifies this
      ensures View() == Accepted(old(View()), friend)
    {
      if friend in pendingFriendRequests {
        pendingFriendRequests := RemoveFirst(pendingFriendRequests, friend);
        AddFriend(friend);
      }
    }

    method SetName(name: string)
      modifies this
      ensures View() == old(View()).(name := name)
    {
      this.name := name;
    }

    /** Fails with AttributeNotFilled exactly when the key was never set. */
    function GetAttribute(attribute: string): (r: Result<string>)
      reads this
      ensures r.Err? <==> attribute !in attributes
      ensures r.Err? ==> r.error == AttributeNotFilled
      ensures r.Ok? ==> r.value == attributes[attribute]
    {
      if attribute !in attributes then Err(AttributeNotFilled) else Ok(attributes[attribute])
    }

    /** After setting a key, reading it gives the new value; every other key
        reads as before. */
    method SetAttribute(attribute: string, value: string)
      modifies this
      ensures View() == old(View()).(attributes := old(attributes)[attribute := value])
      ensures GetAttribute(attribute) == Ok(value)
      ensures forall k :: k != attribute ==> GetAttribute(k) == old(GetAttribute(k))
    {
      attributes := attributes[attribute := value];
    }

    /** Delivery appends at the tail of the queue. */
    method AddMessage(message: string)
      modifies this
      ensures View() == old(View()).(messages := old(messages) + [message])
    {
      messages := messages + [message];
    }

    /** Removes and returns the oldest message; on an empty queue throws and
        changes nothing. */
    method ReadMessage() returns (r: Result<string>)
      modifies this
      ensures old(messages) == [] ==> r == Err(MessageRefused(NoNotes)) && View() == old(View())
      ensures old(messages) != [] ==>
        r == Ok(old(messages)[0]) && View() == old(View()).(messages := old(messages)[1..])
    {
      if messages == [] {
        return Err(MessageRefused(NoNotes));
      }
      r := Ok(messages[0]);
      messages := messages[1..];
    }

    method AddCommunity(communityName: string)
      modifies this
      ensures View() == WithCommunity(old(View()), communityName)
    {
      if communityName !in communities {
        communities := communities + [communityName];
      }
    }

    method RemoveCommunity(communityName: string)
      modifies this
      ensures View() == WithoutCommunity(old(View()), communityName)
    {
      communities := RemoveFirst(communities, communityName);
    }

    /** Drops exactly the queued messages that start with
        "Mensagem de <senderLogin>:", keeping the others in order. */
    method RemoveMessagesFrom(senderLogin: string)
      modifies this
      ensures View() == Unsent(old(View()), senderLogin)
    {
      messages := WithoutSender(messages, senderLogin);
    }

    /** Whether `idol` is among the account's idols. */
    predicate IsIdol(idol: string): (r: bool)
      reads this
      ensures r <==> idol in View().idols
    {
      idol in idols
    }

    method AddIdol(idol: string)
      modifies this
      ensures View() == WithIdol(old(View()), idol)
    {
      if idol !in idols {
        idols := idols + [idol];
      }
    }

    /** Whether `crush` is among the account's crushes. */
    predicate IsCrush(crush: string): (r: bool)
      reads this
      ensures r <==> crush in View().crushes
    {
      crush in crushes
    }

    method AddCrush(crush: string)
      modifies this
      ensures View() == WithCrush(old(View()), crush)
    {
      if crush !in crushes {
        crushes := crushes + [crush];
      }
    }

    /** Whether `enemy` is among the account's enemies. */
    predicate IsEnemy(enemy: string): (r: bool)
      reads this
      ensures r <==> enemy in View().enemies
    {
      enemy in enemies
    }

    method AddEnemy(enemy: string)
      modifies this
      ensures View() == WithEnemy(old(View()), enemy)
    {
      if enemy !in enemies {
        enemies := enemies + [enemy];
      }
    }

    /** The observer callback a community broadcast uses. */
    method Update(message: string)
      modifies this
      ensures View() == old(View()).(messages := old(messages) + [message])
    {
      AddMessage(message);
    }
  }

  /** A new account that receives two messages hands them back oldest first,
      and then reports an empty queue. */
  method DeliverAndReadInOrder(login: string, password: string, name: string, m1: string, m2: string)
    returns (r1: Result<string>, r2: Result<string>, r3: Result<string>)
    ensures r1 == Ok(m1) && r2 == Ok(m2)
    ensures r3 == Err(MessageRefused(NoNotes))
  {
    var u := new Users(login, password, name);
    u.AddMessage(m1);
    u.Update(m2);
    r1 := u.ReadMessage();
    r2 := u.ReadMessage();
    r3 := u.ReadMessage();
  }

  /** A profile attribute reads back as the value last set, and a key never
      set is reported as not filled. */
  method AttributeRoundTrip(login: string, password: string, name: string, key: string, v1: string, v2: string)
    returns (before: Result<string>, after: Result<string>)
    ensures before == Err(AttributeNotFilled)
    ensures after == Ok(v2)
  {
    var u := new Users(login, password, name);
    before := u.GetAttribute(key);
    u.SetAttribute(key, v1);
    u.SetAttribute(key, v2);
    after := u.GetAttribute(key);
  }
}
