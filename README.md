# Jackut: a verified model of the social-network core

Jackut is a small social network written in Java. Its state lives in three
classes:

- **`Users`** is one account. It holds the account's login, password and name.
  It keeps duplicate-free lists of friends, pending friend requests, idols,
  crushes, enemies and community names. It also has a FIFO personal message
  queue and a map of profile attributes.
- **`Community`** holds a name, a description and an owner. It keeps an ordered
  member list with one FIFO queue per member, and the account objects that
  observe its broadcasts.
- **`Facade`** is the entry point. It holds the accounts by login, the open
  sessions by id, the communities by name and a session counter. Every
  use-case is one of its methods: create user, open session, add friend,
  messages, communities, idol, crush, enemy, remove user.

The Dafny project keeps that shape. Each of the three classes is a Dafny
`class` with the same fields, and its methods change them in place.

- Each class has a ghost view of its state: an `Account` or `Group` datatype.
- `Facade` keeps ghost maps of those values (`accounts`, `groups`).
- `Facade.Valid()` ties the objects to the ghost maps.
- The invariant holds the following:
  - Every relation list is duplicate-free.
  - Every community is filed under its own name, keeps its owner as a member,
    and has exactly one queue per member.
  - Every open session id is `session<n>` for some `n` from 1 up to the
    session counter: it is one the counter has issued.

Each public operation is proved against a specification. It states every error
in the source's guard order, and it states the new state as a function of the
old one. The separate lemmas below prove what those functions promise.

Files:

- `lists.dfy` (module `Lists`): guarded insertion, and `List.remove(Object)`.
- `text.dfy` (module `Text`):
  - the `trim().isEmpty()` blank test;
  - decimal session ids;
  - `String.join` and its inverse;
  - the `Mensagem de <sender>: ` format, and the prefix filter that purges a
    sender.
- `errors.dfy` (module `Errors`): one error constructor per exception class,
  plus the messages the facade uses.
- `users.dfy` (module `Accounts`): the `Users` class and the `Account` value.
- `community.dfy` (module `Communities`): the `Community` class, the `Group`
  value, the broadcast loops, and three scenarios.
- `social.dfy` (module `Social`): the relation use-cases (`addFriend`,
  `addIdol`, `addCrush`, `addEnemy`) as functions on accounts and sessions, and
  lemmas about them.
- `facade.dfy` (module `Jackut`): the `Facade` class and its use-cases, with
  the loops of `readMessage` and `removeUser`.

Behaviour modelled as the code has it, where a reader might expect
otherwise:

- **Friend requests run backwards.** A request from A to B leaves A pending on
  B's side.
  - If B then asks A, the call is refused as "already pending".
  - If A asks B again, the friendship completes
    (`Social.RepeatedRequestCompletesFriendship`).
- **A mutual crush fails.** The match notice is sent with the literal session id
  `"Jackut"`. No session ever has that id (`Jackut.JackutIsNoSession`). So the
  call fails with UserNotFound after the crush has been recorded, and no notice
  is delivered (`Social.MutualCrushRecordedThenFails`).
- **Direct messages are stored raw.** They carry no sender prefix.
  `readMessage` reads community queues only; it never reads the personal
  queue.
- **Purging is by text prefix, not by sender.** The messages of a removed sender
  are found by the prefix `Mensagem de <login>:`. So removing `a` also drops
  the broadcasts of a login `a:b` (`Text.PurgeMatchesLongerLogin`).
- **`createCommunity` is incomplete.** It neither lists the community in the
  owner's communities nor makes the owner an observer. It checks for a
  duplicate name before it checks the session.
- **`removeUser` is partial.**
  - Other accounts' relation lists still name the removed login
    (`Social.StaleFriendshipBreaksSeparation` shows the consequence).
  - Community observer lists still hold its object.
  - Only the calling session is closed.
  - Accounts that joined a community the removed user owned still list that
    community's name after the community is dropped: only queues change in
    the other accounts (`Jackut.RemovalLeavesNoTrace`).
- **Community order is the hash map's.** `readMessage` returns the head of the
  first non-empty queue in the map's iteration order. That order is not fixed.
- **Observers are kept.** Joining a community registers the account object as an
  observer. A broadcast therefore also lands in the personal queue of every
  observer, once per registration.

## Model

| member | source | states |
|---|---|---|
| `Lists.Insert` | P2-2023.1-JACKUT/src/br/ufal/ic/p2/jackut/Users.java:52-56 | guarded add: the element is present afterwards; the old list is a prefix; only that element is appended, and only when it was absent; a duplicate-free list stays duplicate-free |
| `Lists.InsertIdempotent` | P2-2023.1-JACKUT/src/br/ufal/ic/p2/jackut/Users.java:206-210 | adding an element already present leaves the list unchanged, so adding twice is adding once |
| `Lists.RemoveFirst` | P2-2023.1-JACKUT/src/br/ufal/ic/p2/jackut/Users.java:217-219 | `List.remove(Object)` shortens the list by one exactly when the element occurs, adds nothing, and keeps every other element |
| `Lists.RemoveFirstNoDup` | P2-2023.1-JACKUT/src/br/ufal/ic/p2/jackut/Users.java:96 | on a duplicate-free list, removal takes away exactly that element, keeps the list duplicate-free, and is a no-op for an absent one |
| `Lists.RemoveFirstKeepsOrder` | P2-2023.1-JACKUT/src/br/ufal/ic/p2/jackut/Users.java:217-219 | `List.remove(Object)` cuts out exactly the first occurrence and keeps everything else in order; without an occurrence the list is unchanged |
| `Text.Trim` | P2-2023.1-JACKUT/src/br/ufal/ic/p2/jackut/Facade.java:75 | what `trim()` leaves starts and ends above U+0020, is never longer, and a string that already starts and ends above U+0020 is left as it is |
| `Text.TrimIsInfix` | P2-2023.1-JACKUT/src/br/ufal/ic/p2/jackut/Facade.java:75 | what `trim()` leaves is, character by character, the stretch of the input that follows its leading run of characters at or below U+0020, and everything after that stretch is at or below U+0020 too: exactly the two blank runs are cut |
| `Text.BlankIffTrimsToEmpty` | P2-2023.1-JACKUT/src/br/ufal/ic/p2/jackut/Facade.java:74-78 | the blank test (every character at or below U+0020) holds exactly when Java's `trim()` leaves the empty string |
| `Text.ParseNatToString` | P2-2023.1-JACKUT/src/br/ufal/ic/p2/jackut/Facade.java:108 | the decimal rendering of the counter reads back as the same number |
| `Text.SessionId` | P2-2023.1-JACKUT/src/br/ufal/ic/p2/jackut/Facade.java:108 | every issued id is "session" followed by at least one character, and every character after "session" is a decimal digit |
| `Text.SessionIdInjective` | P2-2023.1-JACKUT/src/br/ufal/ic/p2/jackut/Facade.java:108 | different counter values give different session ids |
| `Text.Join` | P2-2023.1-JACKUT/src/br/ufal/ic/p2/jackut/Facade.java:187 | `String.join` gives "" for an empty list and the element itself for a one-element list |
| `Text.SplitJoin` | P2-2023.1-JACKUT/src/br/ufal/ic/p2/jackut/Facade.java:187 | a non-empty joined list whose names hold no separator splits back into the same list |
| `Text.LowerAscii` | P2-2023.1-JACKUT/src/br/ufal/ic/p2/jackut/Facade.java:206 | folding maps upper-case ASCII letters to lower case and leaves every other character alone |
| `Text.EqualsIgnoreCase` | P2-2023.1-JACKUT/src/br/ufal/ic/p2/jackut/Facade.java:206 | two strings are equal ignoring case exactly when they fold to the same string |
| `Text.WithoutSender` | P2-2023.1-JACKUT/src/br/ufal/ic/p2/jackut/Users.java:235-237 | the purge keeps exactly the messages not starting with "Mensagem de <sender>:" and never grows the queue |
| `Text.WithoutSenderAppend` | P2-2023.1-JACKUT/src/br/ufal/ic/p2/jackut/Users.java:236 | the purge keeps the relative order of what it keeps: purging a concatenation purges each part |
| `Text.WithoutSenderIdempotent` | P2-2023.1-JACKUT/src/br/ufal/ic/p2/jackut/Users.java:236 | purging twice is purging once |
| `Text.OwnBroadcastPurged` | P2-2023.1-JACKUT/src/br/ufal/ic/p2/jackut/Community.java:70 | a broadcast "Mensagem de <sender>: <content>" carries the prefix that the purge of its sender matches, and the content follows one space after that prefix |
| `Text.PurgeMatchesLongerLogin` | P2-2023.1-JACKUT/src/br/ufal/ic/p2/jackut/Users.java:236 | the purge of login "a" also matches a broadcast of login "a:b" |
| `Accounts.NewAccount` | P2-2023.1-JACKUT/src/br/ufal/ic/p2/jackut/Users.java:33-45 | a new account has the given login, password and name, empty relation lists, an empty queue and no attributes |
| `Accounts.WithFriend` | P2-2023.1-JACKUT/src/br/ufal/ic/p2/jackut/Users.java:52-56 | only the friend list changes; the friends become the old friends plus the new one; no duplicates appear |
| `Accounts.WithRequest` | P2-2023.1-JACKUT/src/br/ufal/ic/p2/jackut/Users.java:73-77 | only the pending list changes; the requester is in it afterwards, at most once |
| `Accounts.Accepted` | P2-2023.1-JACKUT/src/br/ufal/ic/p2/jackut/Users.java:95-99 | a pending requester leaves the pending list and becomes a friend, and nothing else changes; a non-pending one leaves the account as it was |
| `Accounts.WithCommunity` | P2-2023.1-JACKUT/src/br/ufal/ic/p2/jackut/Users.java:206-210 | only the community list changes; the name is in it afterwards, at most once |
| `Accounts.WithoutCommunity` | P2-2023.1-JACKUT/src/br/ufal/ic/p2/jackut/Users.java:217-219 | only the community list changes; it loses exactly that name and stays duplicate-free |
| `Accounts.WithIdol` | P2-2023.1-JACKUT/src/br/ufal/ic/p2/jackut/Users.java:254-258 | only the idol list changes; the idol is in it afterwards, at most once |
| `Accounts.WithCrush` | P2-2023.1-JACKUT/src/br/ufal/ic/p2/jackut/Users.java:275-279 | only the crush list changes; the crush is in it afterwards, at most once |
| `Accounts.WithEnemy` | P2-2023.1-JACKUT/src/br/ufal/ic/p2/jackut/Users.java:296-300 | only the enemy list changes; the enemy is in it afterwards, at most once |
| `Accounts.Unsent` | P2-2023.1-JACKUT/src/br/ufal/ic/p2/jackut/Users.java:235-237 | only the queue changes; it keeps exactly the messages not from that sender |
| `Accounts.Users.constructor` | P2-2023.1-JACKUT/src/br/ufal/ic/p2/jackut/Users.java:33-45 | the new object holds the value of a new account |
| `Accounts.Users.AddFriend` | P2-2023.1-JACKUT/src/br/ufal/ic/p2/jackut/Users.java:52-56 | the account becomes `WithFriend` of its old value |
| `Accounts.Users.IsFriend` | P2-2023.1-JACKUT/src/br/ufal/ic/p2/jackut/Users.java:64-66 | true exactly when the login is in the account's friend list |
| `Accounts.Users.AddFriendRequest` | P2-2023.1-JACKUT/src/br/ufal/ic/p2/jackut/Users.java:73-77 | the account becomes `WithRequest` of its old value |
| `Accounts.Users.HasPendingRequest` | P2-2023.1-JACKUT/src/br/ufal/ic/p2/jackut/Users.java:86-88 | true exactly when a request from the login is pending on the account |
| `Accounts.Users.AcceptFriendRequest` | P2-2023.1-JACKUT/src/br/ufal/ic/p2/jackut/Users.java:95-99 | the account becomes `Accepted` of its old value |
| `Accounts.Users.SetName` | P2-2023.1-JACKUT/src/br/ufal/ic/p2/jackut/Users.java:151-153 | only the name changes |
| `Accounts.Users.GetAttribute` | P2-2023.1-JACKUT/src/br/ufal/ic/p2/jackut/Users.java:162-167 | fails with AttributeNotFilled exactly when the key is absent, and otherwise returns its value |
| `Accounts.Users.SetAttribute` | P2-2023.1-JACKUT/src/br/ufal/ic/p2/jackut/Users.java:175-177 | the key then reads back as the new value, and every other key reads as before |
| `Accounts.Users.AddMessage` | P2-2023.1-JACKUT/src/br/ufal/ic/p2/jackut/Users.java:184-186 | the message is appended at the tail of the queue, and nothing else changes |
| `Accounts.Users.ReadMessage` | P2-2023.1-JACKUT/src/br/ufal/ic/p2/jackut/Users.java:194-199 | on an empty queue it fails with "Não há recados." and changes nothing; otherwise it removes and returns the oldest message |
| `Accounts.Users.AddCommunity` | P2-2023.1-JACKUT/src/br/ufal/ic/p2/jackut/Users.java:206-210 | the account becomes `WithCommunity` of its old value |
| `Accounts.Users.RemoveCommunity` | P2-2023.1-JACKUT/src/br/ufal/ic/p2/jackut/Users.java:217-219 | the account becomes `WithoutCommunity` of its old value |
| `Accounts.Users.RemoveMessagesFrom` | P2-2023.1-JACKUT/src/br/ufal/ic/p2/jackut/Users.java:235-237 | the account becomes `Unsent` of its old value |
| `Accounts.Users.AddIdol` | P2-2023.1-JACKUT/src/br/ufal/ic/p2/jackut/Users.java:254-258 | the account becomes `WithIdol` of its old value |
| `Accounts.Users.IsIdol` | P2-2023.1-JACKUT/src/br/ufal/ic/p2/jackut/Users.java:245-247 | true exactly when the login is in the account's idol list |
| `Accounts.Users.AddCrush` | P2-2023.1-JACKUT/src/br/ufal/ic/p2/jackut/Users.java:275-279 | the account becomes `WithCrush` of its old value |
| `Accounts.Users.IsCrush` | P2-2023.1-JACKUT/src/br/ufal/ic/p2/jackut/Users.java:266-268 | true exactly when the login is in the account's crush list |
| `Accounts.Users.AddEnemy` | P2-2023.1-JACKUT/src/br/ufal/ic/p2/jackut/Users.java:296-300 | the account becomes `WithEnemy` of its old value |
| `Accounts.Users.IsEnemy` | P2-2023.1-JACKUT/src/br/ufal/ic/p2/jackut/Users.java:287-289 | true exactly when the login is in the account's enemy list |
| `Accounts.Users.Update` | P2-2023.1-JACKUT/src/br/ufal/ic/p2/jackut/Users.java:302-305 | the observer callback appends the message at the tail of the queue |
| `Accounts.DeliverAndReadInOrder` | P2-2023.1-JACKUT/src/br/ufal/ic/p2/jackut/Users.java:184-199 | after m1 then m2 are delivered, two reads return m1 then m2, and a third fails with "Não há recados." |
| `Accounts.AttributeRoundTrip` | P2-2023.1-JACKUT/src/br/ufal/ic/p2/jackut/Users.java:162-177 | a key never set is not filled; after two sets the key reads back as the last value |
| `Social.RequestFriendship` | P2-2023.1-JACKUT/src/br/ufal/ic/p2/jackut/Facade.java:147-152 | accounts other than the two are untouched; if the target holds a request from the caller, the caller's friends become exactly the old ones plus the target and nothing else of the caller changes, the target's friends become exactly the old ones plus the caller, only its friends and pending list change, and (when duplicate-free) its pending list loses exactly the caller; otherwise only the target's pending list changes, to exactly the old requests plus the caller |
| `Social.AddFriend` | P2-2023.1-JACKUT/src/br/ufal/ic/p2/jackut/Facade.java:122-155 | the guards in source order; a failure changes no account, and no account is created or removed |
| `Social.AcceptKeepsCoherence` | P2-2023.1-JACKUT/src/br/ufal/ic/p2/jackut/Facade.java:147-149 | the accepting branch keeps friendship symmetric, friends and pending requests apart, and the lists duplicate-free |
| `Social.RequestKeepsCoherence` | P2-2023.1-JACKUT/src/br/ufal/ic/p2/jackut/Facade.java:150-152 | the requesting branch keeps the same three properties |
| `Social.AddFriendKeepsCoherence` | P2-2023.1-JACKUT/src/br/ufal/ic/p2/jackut/Facade.java:143-152 | every `addFriend` call keeps friendship symmetric, no login both friend and pending on the same account, and no duplicates |
| `Social.RepeatedRequestCompletesFriendship` | P2-2023.1-JACKUT/src/br/ufal/ic/p2/jackut/Facade.java:143-152 | after A asks B, B asking A fails as already pending, while A asking again makes both friends and clears the request |
| `Social.StaleFriendshipBreaksSeparation` | P2-2023.1-JACKUT/src/br/ufal/ic/p2/jackut/Facade.java:609-615 | when a removed login is re-created, an old friend can end up listing it both as friend and as pending requester |
| `Social.AddIdol` | P2-2023.1-JACKUT/src/br/ufal/ic/p2/jackut/Facade.java:503-522 | the guards in order (session, self, enmity either way, duplicate); a failure changes nothing |
| `Social.AddCrush` | P2-2023.1-JACKUT/src/br/ufal/ic/p2/jackut/Facade.java:533-558 | the same guards; every refusal before the crush is recorded (bad session, self, enemy, repeated crush) leaves all accounts as they were; the crush is recorded, and a mutual crush then fails with UserNotFound; no account is created or removed |
| `Social.AddEnemy` | P2-2023.1-JACKUT/src/br/ufal/ic/p2/jackut/Facade.java:568-583 | only session, self and duplicate are refused; the target is never looked up; a failure changes nothing |
| `Social.DeclarationsAddOneEdge` | P2-2023.1-JACKUT/src/br/ufal/ic/p2/jackut/Facade.java:503-583 | a successful idol, crush or enemy declaration appends exactly the target to the actor's list and changes nothing else |
| `Social.EnemyBlocksIdolAndCrush` | P2-2023.1-JACKUT/src/br/ufal/ic/p2/jackut/Facade.java:512-548 | an enemy edge in one direction refuses idol and crush declarations in both directions, and a repeated enmity is refused |
| `Social.MutualCrushRecordedThenFails` | P2-2023.1-JACKUT/src/br/ufal/ic/p2/jackut/Facade.java:550-554 | a mutual crush is recorded, then the call fails with UserNotFound; the other account and the actor's queue are unchanged |
| `Communities.Fanout` | P2-2023.1-JACKUT/src/br/ufal/ic/p2/jackut/Community.java:72-74 | every queue receives the message at its tail, and no queue is added or dropped |
| `Communities.FanoutStep` | P2-2023.1-JACKUT/src/br/ufal/ic/p2/jackut/Community.java:72-74 | serving the next member's queue advances the member loop by exactly that member |
| `Communities.Pop` | P2-2023.1-JACKUT/src/br/ufal/ic/p2/jackut/Community.java:82 | reading takes the head of one member's queue and leaves every other queue, the members and the observers as they were |
| `Communities.Evict` | P2-2023.1-JACKUT/src/br/ufal/ic/p2/jackut/Community.java:90-95 | name, description, owner and observers are kept; a member shortens the list by one and loses its queue, while every other member and every other queue is kept; nobody new becomes a member; a non-member leaves the community unchanged |
| `Communities.EvictKeepsWellFormed` | P2-2023.1-JACKUT/src/br/ufal/ic/p2/jackut/Community.java:90-95 | eviction keeps one queue per member and removes exactly the evicted login; name, owner and observers are unchanged |
| `Communities.Community.constructor` | P2-2023.1-JACKUT/src/br/ufal/ic/p2/jackut/Community.java:21-30 | the owner is the only member, with an empty queue, and there are no observers |
| `Communities.Community.GetMembers` | P2-2023.1-JACKUT/src/br/ufal/ic/p2/jackut/Community.java:44-46 | returns the member list of the community's value |
| `Communities.Community.AddMember` | P2-2023.1-JACKUT/src/br/ufal/ic/p2/jackut/Community.java:48-53 | a newcomer is appended with a fresh empty queue; an existing member changes nothing (its queue is not reset); one queue per member is kept |
| `Communities.Community.AddObserver` | P2-2023.1-JACKUT/src/br/ufal/ic/p2/jackut/Community.java:55-57 | the account object is appended to the observers |
| `Communities.Community.RemoveObserver` | P2-2023.1-JACKUT/src/br/ufal/ic/p2/jackut/Community.java:59-61 | the first registration of the object leaves the observers |
| `Communities.Community.NotifyObservers` | P2-2023.1-JACKUT/src/br/ufal/ic/p2/jackut/Community.java:63-67 | every observing account receives the message once per time it is listed, and nothing else in it changes |
| `Communities.Community.AddMessage` | P2-2023.1-JACKUT/src/br/ufal/ic/p2/jackut/Community.java:69-75 | "Mensagem de <sender>: <content>" is appended to every member's queue, the sender's included, and delivered to every observer |
| `Communities.Community.Enqueue` | P2-2023.1-JACKUT/src/br/ufal/ic/p2/jackut/Community.java:72-74 | the member loop leaves every queue with the message at its tail and changes nothing else |
| `Communities.Community.ReadMessage` | P2-2023.1-JACKUT/src/br/ufal/ic/p2/jackut/Community.java:77-83 | fails with NoMessages and changes nothing when the login has no queue or an empty one; otherwise pops only the head of that queue |
| `Communities.Community.RemoveMember` | P2-2023.1-JACKUT/src/br/ufal/ic/p2/jackut/Community.java:90-95 | the community becomes `Evict` of its old value; the login is no longer a member |
| `Communities.BroadcastReachesMembers` | P2-2023.1-JACKUT/src/br/ufal/ic/p2/jackut/Community.java:69-83 | a broadcast reaches the owner and a member who joined before it, but not a login that never joined |
| `Communities.LateMemberMissesBroadcast` | P2-2023.1-JACKUT/src/br/ufal/ic/p2/jackut/Community.java:48-75 | a member who joins after a broadcast finds no message |
| `Communities.BroadcastsReadInOrder` | P2-2023.1-JACKUT/src/br/ufal/ic/p2/jackut/Community.java:69-83 | two broadcasts are read by a member in the order they were sent, then the queue is empty |
| `Jackut.IssuedIff` | P2-2023.1-JACKUT/src/br/ufal/ic/p2/jackut/Facade.java:108 | the id "session<k>" has been issued exactly when 1 <= k <= counter |
| `Jackut.IssuedArePrefixed` | P2-2023.1-JACKUT/src/br/ufal/ic/p2/jackut/Facade.java:108 | every issued id starts with "session" |
| `Jackut.NotYetOpen` | P2-2023.1-JACKUT/src/br/ufal/ic/p2/jackut/Facade.java:108-109 | no id the counter has yet to produce is open |
| `Jackut.OpenKeepsIssuable` | P2-2023.1-JACKUT/src/br/ufal/ic/p2/jackut/Facade.java:108-109 | the next id is not already open, and after it is opened every open id has been issued by the incremented counter |
| `Jackut.JackutIsNoSession` | P2-2023.1-JACKUT/src/br/ufal/ic/p2/jackut/Facade.java:553-554 | "Jackut" is never an open session id |
| `Jackut.PopKeepsFiled` | P2-2023.1-JACKUT/src/br/ufal/ic/p2/jackut/Community.java:82 | reading a queue keeps the community filed, well formed and owned by a member |
| `Jackut.EnlistKeepsFiled` | P2-2023.1-JACKUT/src/br/ufal/ic/p2/jackut/Community.java:48-53 | admitting a newcomer keeps the community filed and well formed |
| `Jackut.NotifiedKeepsConsistent` | P2-2023.1-JACKUT/src/br/ufal/ic/p2/jackut/Community.java:63-67 | receiving broadcasts changes only the queues: each queue keeps what it held and gains as many copies of the message at its end as the tally says; every relation list stays duplicate-free |
| `Jackut.Disbanded` | P2-2023.1-JACKUT/src/br/ufal/ic/p2/jackut/Facade.java:600-606 | the communities left are exactly those the login does not own; each keeps its name, description, owner and observers, keeps every other member and gains none, no longer has a queue for the login, and keeps every other queue |
| `Jackut.Purged` | P2-2023.1-JACKUT/src/br/ufal/ic/p2/jackut/Facade.java:609-611 | every account is kept, with only its queue changed; no message left in any queue starts with the login's prefix, and every message without that prefix stays |
| `Jackut.DrainedEverywhere` | P2-2023.1-JACKUT/src/br/ufal/ic/p2/jackut/Facade.java:311-320 | once every community has been visited without a message, every queue of the login is empty |
| `Jackut.DisbandBounds` | P2-2023.1-JACKUT/src/br/ufal/ic/p2/jackut/Facade.java:600-606 | the community loop starts with nothing done and ends with every owned community dropped and every other one evicted from |
| `Jackut.PurgeBounds` | P2-2023.1-JACKUT/src/br/ufal/ic/p2/jackut/Facade.java:609-611 | the account loop starts with nothing purged and ends with every account purged |
| `Jackut.RemovalLeavesNoTrace` | P2-2023.1-JACKUT/src/br/ufal/ic/p2/jackut/Facade.java:591-618 | after removal the kept communities are exactly those it did not own, each still filed, without it as member or queue, with the same observers; no personal queue holds a message with its prefix and every other message stays; nothing but queues changes in the accounts |
| `Jackut.Facade.constructor` | P2-2023.1-JACKUT/src/br/ufal/ic/p2/jackut/Facade.java:27-33 | the system starts empty with the counter at 0 |
| `Jackut.Facade.ResetSystem` | P2-2023.1-JACKUT/src/br/ufal/ic/p2/jackut/Facade.java:38-44 | accounts, sessions and communities are forgotten, and the counter returns to 0 |
| `Jackut.Facade.CreateUser` | P2-2023.1-JACKUT/src/br/ufal/ic/p2/jackut/Facade.java:55-90 | a blank login, then a blank password, then a taken login are refused with their messages; success adds exactly the new account |
| `Jackut.Facade.Register` | P2-2023.1-JACKUT/src/br/ufal/ic/p2/jackut/Facade.java:63-64 | files a new account under the login and keeps the invariant |
| `Jackut.Facade.OpenSession` | P2-2023.1-JACKUT/src/br/ufal/ic/p2/jackut/Facade.java:100-111 | succeeds exactly on non-blank matching credentials; failure leaves sessions and counter alone; success increments the counter and maps the fresh id "session<counter>" to the login |
| `Jackut.Facade.GetSessionUser` | P2-2023.1-JACKUT/src/br/ufal/ic/p2/jackut/Facade.java:447-452 | an unknown id fails with "Sessão inválida."; otherwise returns its login |
| `Jackut.Facade.GetCommunity` | P2-2023.1-JACKUT/src/br/ufal/ic/p2/jackut/Facade.java:434-439 | an unknown name fails with CommunityNotFound; otherwise returns the community |
| `Jackut.Facade.AddFriend` | P2-2023.1-JACKUT/src/br/ufal/ic/p2/jackut/Facade.java:122-155 | answers and updates the accounts exactly as `Social.AddFriend` |
| `Jackut.Facade.RequestFriendship` | P2-2023.1-JACKUT/src/br/ufal/ic/p2/jackut/Facade.java:147-152 | the target accepts a pending request from the caller, who then befriends it; otherwise the target records the request |
| `Jackut.Facade.Accept` | P2-2023.1-JACKUT/src/br/ufal/ic/p2/jackut/Facade.java:148 | the target's account becomes `Accepted`, and the invariant is kept |
| `Jackut.Facade.Befriend` | P2-2023.1-JACKUT/src/br/ufal/ic/p2/jackut/Facade.java:149 | the caller's account becomes `WithFriend`, and the invariant is kept |
| `Jackut.Facade.Request` | P2-2023.1-JACKUT/src/br/ufal/ic/p2/jackut/Facade.java:151 | the target's account becomes `WithRequest`, and the invariant is kept |
| `Jackut.Facade.IsFriend` | P2-2023.1-JACKUT/src/br/ufal/ic/p2/jackut/Facade.java:165-172 | an unknown login fails; otherwise true exactly when the friend is in the friend list |
| `Jackut.Facade.GetFriends` | P2-2023.1-JACKUT/src/br/ufal/ic/p2/jackut/Facade.java:181-188 | an unknown login fails; no friends gives ""; a list without commas splits back from the string |
| `Jackut.Facade.GetUserAttribute` | P2-2023.1-JACKUT/src/br/ufal/ic/p2/jackut/Facade.java:199-215 | an unknown login fails; "name" in any letter case is never filled; any other key reads its value or fails as not filled |
| `Jackut.Facade.EditProfile` | P2-2023.1-JACKUT/src/br/ufal/ic/p2/jackut/Facade.java:225-239 | an unknown session fails and changes nothing; "name" renames the account (and still reads as not filled); any other key is set and reads back |
| `Jackut.Facade.Rename` | P2-2023.1-JACKUT/src/br/ufal/ic/p2/jackut/Facade.java:234 | only the account's name changes, and the invariant is kept |
| `Jackut.Facade.Annotate` | P2-2023.1-JACKUT/src/br/ufal/ic/p2/jackut/Facade.java:236 | only the account's attribute changes, and the invariant is kept |
| `Jackut.Facade.SendMessage` | P2-2023.1-JACKUT/src/br/ufal/ic/p2/jackut/Facade.java:252-270 | unknown session, then self, then unknown recipient are refused and change nothing; otherwise the raw text is appended to the recipient's queue only |
| `Jackut.Facade.Deliver` | P2-2023.1-JACKUT/src/br/ufal/ic/p2/jackut/Facade.java:268 | only the recipient's queue changes, by the message at its tail |
| `Jackut.Facade.SendMessageToCommunity` | P2-2023.1-JACKUT/src/br/ufal/ic/p2/jackut/Facade.java:281-295 | unknown session, then unknown community, then non-member are refused and change nothing; otherwise member queues receive the broadcast (`Communities.Fanout`) and every account receives it once per observer registration (`Tally` counts the registrations, `Notified` appends that many copies, see `Jackut.NotifiedKeepsConsistent`) |
| `Jackut.Facade.Broadcast` | P2-2023.1-JACKUT/src/br/ufal/ic/p2/jackut/Facade.java:293 | the community's queues are fanned out and the observing accounts notified, and the invariant is kept |
| `Jackut.Facade.ReadMessage` | P2-2023.1-JACKUT/src/br/ufal/ic/p2/jackut/Facade.java:305-321 | an unknown session fails; otherwise it either pops the head of one non-empty queue of the caller in one of its communities, or fails with NoMessages when all its queues are empty; the personal queue is never read |
| `Jackut.Facade.Fetch` | P2-2023.1-JACKUT/src/br/ufal/ic/p2/jackut/Facade.java:311-320 | the loop over communities returns the first message found, having changed only that queue, or NoMessages with every queue empty |
| `Jackut.Facade.Visit` | P2-2023.1-JACKUT/src/br/ufal/ic/p2/jackut/Facade.java:312-318 | one turn: a member with messages takes the head of its queue; otherwise nothing changes and the community holds nothing for the login |
| `Jackut.Facade.ReadFrom` | P2-2023.1-JACKUT/src/br/ufal/ic/p2/jackut/Facade.java:314-317 | a non-empty queue gives its head and pops it; an empty one throws, and the error is swallowed without any change |
| `Jackut.Facade.CreateCommunity` | P2-2023.1-JACKUT/src/br/ufal/ic/p2/jackut/Facade.java:331-340 | a taken name is refused before the session is checked; success files a community whose only member is the owner; no account changes |
| `Jackut.Facade.Found` | P2-2023.1-JACKUT/src/br/ufal/ic/p2/jackut/Facade.java:337-338 | files a new community under its name, and the invariant is kept |
| `Jackut.Facade.AddUserToCommunity` | P2-2023.1-JACKUT/src/br/ufal/ic/p2/jackut/Facade.java:351-368 | unknown session, then unknown community, then existing member are refused and change nothing; otherwise the login is appended as member with an empty queue, its account object becomes an observer, and its account lists the community |
| `Jackut.Facade.Enter` | P2-2023.1-JACKUT/src/br/ufal/ic/p2/jackut/Facade.java:364-366 | the community admits the login and the account lists the community, and the invariant is kept |
| `Jackut.Facade.Seat` | P2-2023.1-JACKUT/src/br/ufal/ic/p2/jackut/Facade.java:364-365 | the community gains the member and the observer, and the whole invariant is kept |
| `Jackut.Facade.Admit` | P2-2023.1-JACKUT/src/br/ufal/ic/p2/jackut/Facade.java:364-365 | the community gains the member and the observer, and the community invariant is kept |
| `Jackut.Facade.Enrol` | P2-2023.1-JACKUT/src/br/ufal/ic/p2/jackut/Facade.java:366 | the account becomes `WithCommunity`, and the invariant is kept |
| `Jackut.Facade.GetUserCommunities` | P2-2023.1-JACKUT/src/br/ufal/ic/p2/jackut/Facade.java:377-389 | an unknown login fails; the answer is braced; "{}" when there are none; a list without commas splits back from between the braces |
| `Jackut.Facade.GetCommunityDescription` | P2-2023.1-JACKUT/src/br/ufal/ic/p2/jackut/Facade.java:398-401 | an unknown name fails with CommunityNotFound; otherwise returns the description |
| `Jackut.Facade.GetCommunityOwner` | P2-2023.1-JACKUT/src/br/ufal/ic/p2/jackut/Facade.java:410-413 | an unknown name fails with CommunityNotFound; otherwise returns the owner |
| `Jackut.Facade.GetCommunityMembers` | P2-2023.1-JACKUT/src/br/ufal/ic/p2/jackut/Facade.java:422-425 | an unknown name fails; the answer is braced; the member list is never empty and, without commas, splits back from between the braces |
| `Jackut.Facade.AddIdol` | P2-2023.1-JACKUT/src/br/ufal/ic/p2/jackut/Facade.java:503-522 | answers and updates the accounts exactly as `Social.AddIdol` |
| `Jackut.Facade.RecordIdol` | P2-2023.1-JACKUT/src/br/ufal/ic/p2/jackut/Facade.java:520 | the account becomes `WithIdol`, and the invariant is kept |
| `Jackut.Facade.AddCrush` | P2-2023.1-JACKUT/src/br/ufal/ic/p2/jackut/Facade.java:533-558 | answers and updates the accounts exactly as `Social.AddCrush` |
| `Jackut.Facade.DeclareCrush` | P2-2023.1-JACKUT/src/br/ufal/ic/p2/jackut/Facade.java:550-555 | the crush is recorded; the call then fails with UserNotFound exactly when the crush is mutual |
| `Jackut.Facade.RecordCrush` | P2-2023.1-JACKUT/src/br/ufal/ic/p2/jackut/Facade.java:550 | the account becomes `WithCrush`, and the invariant is kept |
| `Jackut.Facade.AddEnemy` | P2-2023.1-JACKUT/src/br/ufal/ic/p2/jackut/Facade.java:568-583 | answers and updates the accounts exactly as `Social.AddEnemy` |
| `Jackut.Facade.RecordEnemy` | P2-2023.1-JACKUT/src/br/ufal/ic/p2/jackut/Facade.java:581 | the account becomes `WithEnemy`, and the invariant is kept |
| `Jackut.Facade.RemoveUser` | P2-2023.1-JACKUT/src/br/ufal/ic/p2/jackut/Facade.java:591-618 | an unknown session fails and changes nothing; otherwise the communities become `Disbanded`, the accounts `Purged` minus the login, and only this session closes |
| `Jackut.Facade.Erase` | P2-2023.1-JACKUT/src/br/ufal/ic/p2/jackut/Facade.java:600-611 | both loops: the communities become `Disbanded` and the accounts `Purged` |
| `Jackut.Facade.Disband` | P2-2023.1-JACKUT/src/br/ufal/ic/p2/jackut/Facade.java:600-606 | the community loop drops the owned communities and evicts the login from the others |
| `Jackut.Facade.DisbandOne` | P2-2023.1-JACKUT/src/br/ufal/ic/p2/jackut/Facade.java:601-605 | one turn: an owned community is dropped from the registry; any other one evicts the login |
| `Jackut.Facade.Drop` | P2-2023.1-JACKUT/src/br/ufal/ic/p2/jackut/Facade.java:602 | the community leaves the registry, and the invariant is kept |
| `Jackut.Facade.EvictFrom` | P2-2023.1-JACKUT/src/br/ufal/ic/p2/jackut/Facade.java:604 | the community becomes `Evict` of its old value, and the invariant is kept |
| `Jackut.Facade.PurgeAll` | P2-2023.1-JACKUT/src/br/ufal/ic/p2/jackut/Facade.java:609-611 | the account loop purges the sender's broadcasts from every personal queue |
| `Jackut.Facade.PurgeFrom` | P2-2023.1-JACKUT/src/br/ufal/ic/p2/jackut/Facade.java:610 | the account becomes `Unsent`, and the invariant is kept |
| `Jackut.Facade.Forget` | P2-2023.1-JACKUT/src/br/ufal/ic/p2/jackut/Facade.java:614-615 | the account and the one session leave the registries, and the invariant is kept |

## Left out

- `saveData` and `loadData` are left out. They write and read the `users.dat` and `communities.dat` files, and their I/O errors are printed and swallowed. Saving has no effect on the in-memory state, and the constructor starts from an empty system.
- Hash-map iteration order is left out. The loops of `readMessage` and `removeUser` pick the next community or account with a `:|` choice.
  - The results of `removeUser` do not depend on the order.
  - For `readMessage`, the ghost out-parameter `source` names the community that answered.
- The `ConcurrentModificationException` is left out. `removeUser` removes from `communities` while iterating over its values, and a real run can throw it. The model processes every community.
- NullPointerException paths are preconditions, not designed errors:
  - an idol or crush target that does not exist;
  - a session whose account was removed while another session of it stays open.

  These are the `FriendCallable`/`TargetCallable` requirements of `AddFriend`, `AddIdol` and `AddCrush`, and the matching requirements of `AddEnemy`, `EditProfile` and `AddUserToCommunity`.
- `Jackut.Facade.CreateUser`: a `null` login or password is not modelled, because a Dafny string cannot be null. The source refuses it together with a blank one (`Facade.java:75`, `Facade.java:87`); the model has only the blank case.
- `Jackut.Facade.OpenSession`: the same holds for the `null` tests at `Facade.java:101-102`; only the blank, unknown-login and wrong-password refusals are modelled.
- `Social.AddCrush`: it requires that "Jackut" is not an open session id. Every reachable state meets this (`Jackut.JackutIsNoSession`); the case where the notice could be delivered is not modelled.
- `sessionCounter` overflow is left out. It is a Java `int` and is modelled as an unbounded `nat`.
- `String.trim()` is modelled as dropping characters at or below U+0020, as Java does. `equalsIgnoreCase` is compared against the ASCII word "name" and folds ASCII letters only.
- Observer dispatch is left out. The `Observer` interface is not part of this model. Observers are `Users` objects, whose `update` is the only implementation.
- `UserFactory` and `CommunityFactory` are modelled as direct constructor calls. The exception classes are modelled as the `Errors.Error` datatype. `Serializable` and `Collections.unmodifiableList` are left out.
- The plain getters of `Users` and `Community` (`getLogin`, `getName`, `getFriends`, `getDescription`, and so on) are left out. They read fields, and the facade reads those fields directly.
- `Jackut.Facade.GetFriends`: the string is pinned down only as the comma join of the friends. Its read-back is proved only when no friend login contains a comma.
- `Jackut.Facade.GetUserCommunities`: the same holds for community names.
- `Jackut.Facade.GetCommunityMembers`: the same holds for member logins.
- `Jackut.Facade.ReadMessage`: it states that some community with a non-empty queue answers, not which one. The source's answer depends on the hash map's order.
