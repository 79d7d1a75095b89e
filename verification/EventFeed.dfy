/**
 The event feed of event/feed.go: a list of send cases whose still active part
 is a shrinking prefix, rearranged in place by deliveries while subscriptions
 come and go concurrently.
 */
module EventFeed {
  /** A channel. Channel 0 is the feed's own removeSub channel, held by case 0. */
  type Channel = nat

  const REMOVE_SUB: Channel := 0
  const FIRST_SUB_SEND_CASE := 1

  // ----- The case list -----

  function FindIn(cs: seq<Channel>, ch: Channel): (i: int)
    ensures -1 <= i < |cs|
    ensures i >= 0 ==> cs[i] == ch && ch !in cs[..i]
    ensures i < 0 ==> ch !in cs
  {
    if cs == [] then -1
    else if cs[|cs| - 1] == ch && ch !in cs[..|cs| - 1] then |cs| - 1
    else
      assert cs == cs[..|cs| - 1] + [cs[|cs| - 1]];
      FindIn(cs[..|cs| - 1], ch)
  }

  function Deleted(cs: seq<Channel>, i: nat): (r: seq<Channel>)
    requires i < |cs|
  {
    cs[..i] + cs[i + 1..]
  }

  /** Swap case i with the last of the k active ones. */
  function Deactivated(cs: seq<Channel>, k: nat, i: nat): (r: seq<Channel>)
    requires i < k <= |cs|
  {
    cs[i := cs[k - 1]][k - 1 := cs[i]]
  }

  lemma DeletedElements(cs: seq<Channel>, i: nat)
    requires i < |cs|
    ensures multiset(cs) == multiset(Deleted(cs, i)) + multiset{cs[i]}
  {
    assert cs == cs[..i] + [cs[i]] + cs[i + 1..];
  }

  /** Deactivation rearranges the list and takes exactly case i out of its active prefix. */
  lemma DeactivatedElements(cs: seq<Channel>, k: nat, i: nat)
    requires i < k <= |cs|
    ensures var r := Deactivated(cs, k, i);
            && multiset(r) == multiset(cs)
            && multiset(cs[..k]) == multiset(r[..k - 1]) + multiset{cs[i]}
  {
    var r, c := Deactivated(cs, k, i), cs[..k];
    assert r[..k] == c[i := c[k - 1]][k - 1 := c[i]];
    assert multiset(r[..k]) == multiset(c);
    assert r[..k] == r[..k - 1] + [c[i]];
  }

  lemma FirstIsUnique(cs: seq<Channel>, ch: Channel, i: nat)
    requires i < |cs| && cs[i] == ch && ch !in cs[..i]
    ensures FindIn(cs, ch) == i
  {
    var j := FindIn(cs, ch);
    assert cs[i] in cs;
    forall k | 0 <= k < i ensures cs[k] != ch { assert cs[k] in cs[..i]; }
    forall k | 0 <= k < j ensures cs[k] != ch { assert cs[k] in cs[..j]; }
  }

  method Find(cs: array<Channel>, n: nat, ch: Channel) returns (i: int)
    requires n <= cs.Length
    ensures i == FindIn(cs[..n], ch)
  {
    i := 0;
    while i < n
      invariant 0 <= i <= n && ch !in cs[..i]
    {
      if cs[i] == ch {
        FirstIsUnique(cs[..n], ch, i);
        return;
      }
      assert cs[..i + 1] == cs[..i] + [cs[i]];
      i := i + 1;
    }
    return -1;
  }

  /** Shift what follows case i down by one, in the list's own array. */
  method Delete(cs: array<Channel>, n: nat, i: nat) returns (m: nat)
    requires i < n <= cs.Length
    modifies cs
    ensures m == n - 1 && cs[..m] == Deleted(old(cs[..n]), i)
    ensures cs[..i] == old(cs[..i]) && cs[n..] == old(cs[n..])
  {
    m := i;
    while m < n - 1
      invariant i <= m <= n - 1
      invariant forall j :: 0 <= j < cs.Length && (j < i || m <= j) ==> cs[j] == old(cs[j])
      invariant forall j :: i <= j < m ==> cs[j] == old(cs[j + 1])
    {
      cs[m] := cs[m + 1];
      m := m + 1;
    }
  }

  method Deactivate(cs: array<Channel>, k: nat, i: nat) returns (last: nat)
    requires i < k <= cs.Length
    modifies cs
    ensures last == k - 1 && cs[..] == Deactivated(old(cs[..]), k, i)
  {
    last := k - 1;
    cs[i], cs[last] := cs[last], cs[i];
  }

  // ----- The feed as a step system -----

  /** The Send call that holds the send lock, if any. */
  datatype Sender =
    | NoSend
    | Locked
    | Trying(active: nat, i: nat, nsent: nat)
    | Selecting(active: nat, nsent: nat)

  /**
   `live` holds the channel of each subscription not yet cancelled; `unchecked`
   and `waiting` those of the remove calls that have yet to look at the inbox
   and that looked and found nothing.
   */
  datatype State = State(sendCases: seq<Channel>, inbox: seq<Channel>, live: multiset<Channel>,
                         unchecked: multiset<Channel>, waiting: multiset<Channel>, sender: Sender, panicked: bool)

  datatype Action =
    | Subscribe(ch: Channel)
    | Unsubscribe(ch: Channel)
    | CheckInbox(ch: Channel)
    | RemoveNow(ch: Channel)
    | TakeLock
    | TakeInbox
    | TrySend(ok: bool)
    | EndScan
    | Chosen(k: nat)
    | Interrupted(ch: Channel)

  const INITIAL := State([REMOVE_SUB], [], multiset{}, multiset{}, multiset{}, NoSend, false)

  predicate Enabled(s: State, a: Action) {
    !s.panicked &&
    match a
    case Subscribe(ch) => ch != REMOVE_SUB
    case Unsubscribe(ch) => ch in s.live
    case CheckInbox(ch) => ch in s.unchecked
    case RemoveNow(ch) => ch in s.waiting && s.sender.NoSend?
    case TakeLock => s.sender.NoSend?
    case TakeInbox => s.sender.Locked?
    case TrySend(_) => s.sender.Trying? && s.sender.i < s.sender.active
    case EndScan => s.sender.Trying? && s.sender.i >= s.sender.active
    case Chosen(k) => s.sender.Selecting? && 0 < k < s.sender.active
    case Interrupted(ch) => s.sender.Selecting? && ch in s.waiting
  }

  /** Deactivate case i and count the delivery. */
  function Deliver(s: State, active: nat, i: nat, nsent: nat): State
    requires i < active
  {
    if active > |s.sendCases| then s.(panicked := true)
    else s.(sendCases := Deactivated(s.sendCases, active, i),
            sender := Trying(active - 1, i, nsent + 1))
  }

  /** Send serves a remove call; deleting at index -1 is a run-time panic. */
  function Interrupt(s: State, ch: Channel): State
    requires s.sender.Selecting?
  {
    var index, active := FindIn(s.sendCases, ch), s.sender.active;
    if index < 0 then s.(panicked := true)
    else
      var hit := index < active;
      s.(sendCases := Deleted(s.sendCases, index),
         waiting := s.waiting - multiset{ch},
         sender := Trying(if hit then active - 1 else active, FIRST_SUB_SEND_CASE, s.sender.nsent))
  }

  function Next(s: State, a: Action): State
    requires Enabled(s, a)
  {
    match a
    case Subscribe(ch) => s.(inbox := s.inbox + [ch], live := s.live + multiset{ch})
    case Unsubscribe(ch) => s.(live := s.live - multiset{ch}, unchecked := s.unchecked + multiset{ch})
    case CheckInbox(ch) =>
      var index := FindIn(s.inbox, ch);
      var s' := s.(unchecked := s.unchecked - multiset{ch});
      if index >= 0 then s'.(inbox := Deleted(s.inbox, index)) else s'.(waiting := s.waiting + multiset{ch})
    case RemoveNow(ch) =>
      var index := FindIn(s.sendCases, ch);
      if index < 0 then s.(panicked := true)
      else s.(sendCases := Deleted(s.sendCases, index), waiting := s.waiting - multiset{ch})
    case TakeLock => s.(sender := Locked)
    case TakeInbox =>
      var cs := s.sendCases + s.inbox;
      s.(sendCases := cs, inbox := [], sender := Trying(|cs|, FIRST_SUB_SEND_CASE, 0))
    case TrySend(ok) =>
      var t := s.sender;
      if ok then Deliver(s, t.active, t.i, t.nsent) else s.(sender := t.(i := t.i + 1))
    case EndScan =>
      var t := s.sender;
      s.(sender := if t.active == FIRST_SUB_SEND_CASE then NoSend else Selecting(t.active, t.nsent))
    case Chosen(k) =>
      var t := Deliver(s, s.sender.active, k, s.sender.nsent);
      if t.panicked then t else t.(sender := t.sender.(i := FIRST_SUB_SEND_CASE))
    case Interrupted(ch) => Interrupt(s, ch)
  }

  ghost predicate Stepped(s: State, a: Action, s': State) {
    Enabled(s, a) && s' == Next(s, a)
  }

  /** The states of a run and the actions between them. */
  ghost predicate IsRun(ss: seq<State>, acts: seq<Action>) {
    && |ss| == |acts| + 1 && ss[0] == INITIAL
    && forall i :: 0 <= i < |acts| ==> Stepped(ss[i], acts[i], ss[i + 1])
  }

  // ----- The invariant -----

  function Count(cs: seq<Channel>, ch: Channel): nat {
    multiset(cs)[ch]
  }

  /**
   Every case of a channel belongs to one of its live subscriptions or to a
   remove call that has not finished, and each waiting remove call has its own
   case in sendCases.
   */
  ghost predicate Matched(s: State, ch: Channel) {
    if ch == REMOVE_SUB then
      s.live[ch] == 0 && s.unchecked[ch] == 0 && s.waiting[ch] == 0
      && Count(s.inbox, ch) == 0 && Count(s.sendCases, ch) == 1
    else
      && s.live[ch] + s.unchecked[ch] + s.waiting[ch] == Count(s.inbox, ch) + Count(s.sendCases, ch)
      && s.waiting[ch] <= Count(s.sendCases, ch)
  }

  ghost predicate Subscribed(s: State) {
    && |s.sendCases| > 0 && s.sendCases[0] == REMOVE_SUB
    && forall ch: Channel {:trigger Matched(s, ch)} :: Matched(s, ch)
  }

  ghost predicate Inv(s: State) {
    && !s.panicked && Subscribed(s)
    && match s.sender
       case NoSend => true
       case Locked => true
       case Trying(active, i, _) => 1 <= i <= active <= |s.sendCases|
       case Selecting(active, _) => 1 < active <= |s.sendCases|
  }

  lemma CountDeleted(cs: seq<Channel>, i: nat, ch: Channel)
    requires i < |cs|
    ensures Count(cs, ch) == Count(Deleted(cs, i), ch) + if cs[i] == ch then 1 else 0
  {
    DeletedElements(cs, i);
  }

  lemma CountDeactivated(cs: seq<Channel>, k: nat, i: nat, ch: Channel)
    requires i < k <= |cs|
    ensures var r := Deactivated(cs, k, i);
            && Count(r, ch) == Count(cs, ch)
            && Count(cs[..k], ch) == Count(r[..k - 1], ch) + if cs[i] == ch then 1 else 0
  {
    DeactivatedElements(cs, k, i);
  }

  /** A waiting remove call finds its case, and not the feed's own one. */
  lemma WaitingIsFound(s: State, ch: Channel)
    requires Subscribed(s) && ch in s.waiting
    ensures FindIn(s.sendCases, ch) >= 1
  {
    assert Matched(s, ch);
    assert ch in multiset(s.sendCases);
  }

  lemma HeadStays(cs: seq<Channel>, i: nat)
    requires 0 < i < |cs|
    ensures |Deleted(cs, i)| == |cs| - 1 > 0 && Deleted(cs, i)[0] == cs[0]
  {}

  /** Removing a waiting call's case keeps the books of subscriptions. */
  lemma RemovalMatches(s: State, s': State, ch: Channel)
    requires Subscribed(s) && ch in s.waiting
    requires var i := FindIn(s.sendCases, ch);
             i >= 0 ==> s'.sendCases == Deleted(s.sendCases, i)
    requires s'.waiting == s.waiting - multiset{ch} && s'.inbox == s.inbox && s'.live == s.live
    requires s'.unchecked == s.unchecked
    ensures Subscribed(s')
  {
    hide Count, Deleted;
    WaitingIsFound(s, ch);
    var i := FindIn(s.sendCases, ch);
    HeadStays(s.sendCases, i);
    forall c: Channel ensures Matched(s', c) {
      assert Matched(s, c);
      CountDeleted(s.sendCases, i, c);
    }
  }

  lemma DeliverKeeps(s: State, active: nat, i: nat, nsent: nat)
    requires Subscribed(s) && !s.panicked && 1 <= i < active <= |s.sendCases|
    ensures var s' := Deliver(s, active, i, nsent);
            !s'.panicked && Subscribed(s') && |s'.sendCases| == |s.sendCases|
  {
    hide Count;
    var s' := Deliver(s, active, i, nsent);
    forall c: Channel ensures Matched(s', c) {
      assert Matched(s, c);
      CountDeactivated(s.sendCases, active, i, c);
    }
  }

  /** Deletion in the active prefix shortens it; deletion behind it leaves it alone. */
  lemma PrefixDeleted(cs: seq<Channel>, active: nat, i: nat)
    requires i < |cs| && active <= |cs|
    ensures i < active ==> Deleted(cs, i)[..active - 1] == Deleted(cs[..active], i) && cs[..active][i] == cs[i]
    ensures active <= i ==> Deleted(cs, i)[..active] == cs[..active]
  {}

  lemma InterruptKeeps(s: State, ch: Channel)
    requires Inv(s) && s.sender.Selecting? && ch in s.waiting
    ensures Inv(Interrupt(s, ch))
  {
    hide Count, Deleted, Subscribed;
    WaitingIsFound(s, ch);
    RemovalMatches(s, Interrupt(s, ch), ch);
    HeadStays(s.sendCases, FindIn(s.sendCases, ch));
  }

  lemma CheckInboxKeeps(s: State, ch: Channel)
    requires Subscribed(s) && !s.panicked && ch in s.unchecked
    ensures Subscribed(Next(s, CheckInbox(ch)))
  {
    hide Deleted;
    var s', i := Next(s, CheckInbox(ch)), FindIn(s.inbox, ch);
    forall c: Channel ensures Matched(s', c) {
      assert Matched(s, c);
      if i >= 0 { CountDeleted(s.inbox, i, c); } else { assert ch !in multiset(s.inbox); }
    }
  }

  lemma TakeInboxKeeps(s: State)
    requires Subscribed(s) && !s.panicked && s.sender.Locked?
    ensures Inv(Next(s, TakeInbox))
  {
    var s', cs := Next(s, TakeInbox), s.sendCases + s.inbox;
    forall c: Channel ensures Matched(s', c) {
      assert Matched(s, c);
      assert Count(cs, c) == Count(s.sendCases, c) + Count(s.inbox, c);
    }
  }

  lemma CallsKeep(s: State, a: Action)
    requires Subscribed(s) && Enabled(s, a) && (a.Subscribe? || a.Unsubscribe?)
    ensures Subscribed(Next(s, a))
  {
    var s' := Next(s, a);
    forall c: Channel ensures Matched(s', c) {
      assert Matched(s, c);
      if a.Subscribe? { assert Count(s.inbox + [a.ch], c) == Count(s.inbox, c) + if c == a.ch then 1 else 0; }
    }
  }

  lemma SameBooks(s: State, s': State)
    requires Subscribed(s) && s'.sendCases == s.sendCases && s'.inbox == s.inbox && s'.live == s.live
    requires s'.unchecked == s.unchecked && s'.waiting == s.waiting
    ensures Subscribed(s')
  {
    forall c: Channel ensures Matched(s', c) { assert Matched(s, c); }
  }

  lemma StepKeeps(s: State, a: Action)
    requires Inv(s) && Enabled(s, a)
    ensures Inv(Next(s, a))
  {
    hide Subscribed, Matched, Deleted, Deactivated;
    match a
    case Subscribe(ch) => CallsKeep(s, a);
    case Unsubscribe(ch) => CallsKeep(s, a);
    case CheckInbox(ch) => CheckInboxKeeps(s, ch);
    case RemoveNow(ch) =>
      WaitingIsFound(s, ch);
      RemovalMatches(s, Next(s, a), ch);
    case TakeInbox => TakeInboxKeeps(s);
    case TrySend(ok) =>
      if ok { DeliverKeeps(s, s.sender.active, s.sender.i, s.sender.nsent); } else { SameBooks(s, Next(s, a)); }
    case Chosen(k) =>
      DeliverKeeps(s, s.sender.active, k, s.sender.nsent);
      SameBooks(Deliver(s, s.sender.active, k, s.sender.nsent), Next(s, a));
    case Interrupted(ch) => InterruptKeeps(s, ch);
    case _ => SameBooks(s, Next(s, a));
  }

  lemma InitialKeeps()
    ensures Inv(INITIAL)
  {
    forall c: Channel ensures Matched(INITIAL, c) {}
  }

  /** No run of any number of senders, subscribers and unsubscribers ever panics. */
  lemma {:induction false} RunsKeepInv(ss: seq<State>, acts: seq<Action>, n: nat)
    requires IsRun(ss, acts) && n < |ss|
    ensures Inv(ss[n])
  {
    hide Inv, Enabled, Next;
    if n == 0 {
      InitialKeeps();
    } else {
      RunsKeepInv(ss, acts, n - 1);
      assert Stepped(ss[n - 1], acts[n - 1], ss[n]);
      StepKeeps(ss[n - 1], acts[n - 1]);
    }
  }

  // ----- What a Send achieves -----

  /**
   What is seen of a part of a run: the channels a value was sent to, the
   removals that a Send served, and those of them that hit a case still active.
   */
  datatype Log = Log(delivered: multiset<Channel>, gone: multiset<Channel>, cut: multiset<Channel>)

  const EMPTY_LOG := Log(multiset{}, multiset{}, multiset{})

  /** A successful try sends to the case tried, a select to the case chosen. */
  function Seen(log: Log, s: State, a: Action): Log
    requires Enabled(s, a)
  {
    var cs := s.sendCases;
    match a
    case TrySend(ok) =>
      if ok && s.sender.i < |cs| then log.(delivered := log.delivered + multiset{cs[s.sender.i]}) else log
    case Chosen(k) => if k < |cs| then log.(delivered := log.delivered + multiset{cs[k]}) else log
    case Interrupted(ch) =>
      log.(gone := log.gone + multiset{ch},
           cut := if FindIn(cs, ch) < s.sender.active then log.cut + multiset{ch} else log.cut)
    case _ => log
  }

  ghost function History(ss: seq<State>, acts: seq<Action>, k: nat, m: nat): Log
    requires IsRun(ss, acts) && k <= m < |ss|
  {
    if m == k then EMPTY_LOG
    else
      assert Stepped(ss[m - 1], acts[m - 1], ss[m]);
      Seen(History(ss, acts, k, m - 1), ss[m - 1], acts[m - 1])
  }

  predicate Busy(s: State) {
    s.sender.Trying? || s.sender.Selecting?
  }

  /** A Send takes up the inbox in state k and is still at work in state m. */
  ghost predicate IsSend(ss: seq<State>, acts: seq<Action>, k: nat, m: nat) {
    IsRun(ss, acts) && k < m < |ss| && acts[k] == TakeInbox && forall j :: k < j <= m ==> Busy(ss[j])
  }

  /** The subscriptions of a channel that have not been removed, cancelled or not. */
  function Owed(s: State, ch: Channel): nat {
    s.live[ch] + s.unchecked[ch] + s.waiting[ch]
  }

  /** Of those owed, each has a case still active, was sent to, or was cut while active. */
  ghost predicate Accounted(cs: seq<Channel>, active: nat, owed: nat, log: Log, ch: Channel)
    requires active <= |cs|
  {
    var own := if ch == REMOVE_SUB then 1 else 0;
    && Count(cs[..active], ch) + log.delivered[ch] + log.cut[ch] == owed + own
    && Count(cs, ch) + log.gone[ch] == owed + own && log.cut[ch] <= log.gone[ch]
  }

  ghost predicate Sending(s0: State, s: State, log: Log)
    requires Busy(s)
  {
    && 1 <= s.sender.active <= |s.sendCases| && s.sender.nsent == |log.delivered|
    && forall ch: Channel {:trigger Accounted(s.sendCases, s.sender.active, Owed(s0, ch), log, ch)} ::
         Accounted(s.sendCases, s.sender.active, Owed(s0, ch), log, ch)
  }

  /** Taking up the inbox makes a case active for everything owed. */
  lemma SendStarts(s: State)
    requires Inv(s) && Enabled(s, TakeInbox)
    ensures Sending(s, Next(s, TakeInbox), EMPTY_LOG)
  {
    var s' := Next(s, TakeInbox);
    var cs := s'.sendCases;
    assert cs[..|cs|] == cs;
    forall ch: Channel ensures Accounted(cs, |cs|, Owed(s, ch), EMPTY_LOG, ch) {
      assert Matched(s, ch);
      assert Count(s.sendCases + s.inbox, ch) == Count(s.sendCases, ch) + Count(s.inbox, ch);
    }
  }

  lemma DeliveryCounts(s0: State, s: State, log: Log, i: nat, s': State)
    requires Busy(s) && Sending(s0, s, log) && i < s.sender.active && Busy(s')
    requires s'.sendCases == Deactivated(s.sendCases, s.sender.active, i) && s'.sender.active == s.sender.active - 1 >= 1
    requires s'.sender.nsent == s.sender.nsent + 1
    ensures Sending(s0, s', log.(delivered := log.delivered + multiset{s.sendCases[i]}))
  {
    hide Count;
    var log' := log.(delivered := log.delivered + multiset{s.sendCases[i]});
    assert |log'.delivered| == |log.delivered| + 1;
    forall c: Channel ensures Accounted(s'.sendCases, s'.sender.active, Owed(s0, c), log', c) {
      assert Accounted(s.sendCases, s.sender.active, Owed(s0, c), log, c);
      CountDeactivated(s.sendCases, s.sender.active, i, c);
    }
  }

  lemma RemovalCounts(s0: State, s: State, log: Log, ch: Channel)
    requires Inv(s) && Enabled(s, Interrupted(ch)) && Sending(s0, s, log)
    ensures Sending(s0, Interrupt(s, ch), Seen(log, s, Interrupted(ch)))
  {
    hide Count, Deleted, Subscribed;
    var s', cs, active := Interrupt(s, ch), s.sendCases, s.sender.active;
    WaitingIsFound(s, ch);
    var i := FindIn(cs, ch);
    HeadStays(cs, i);
    PrefixDeleted(cs, active, i);
    forall c: Channel ensures Accounted(s'.sendCases, s'.sender.active, Owed(s0, c), Seen(log, s, Interrupted(ch)), c) {
      assert Accounted(cs, active, Owed(s0, c), log, c);
      CountDeleted(cs, i, c);
      if i < active { CountDeleted(cs[..active], i, c); }
    }
  }

  lemma SendGoesOn(s0: State, s: State, log: Log, a: Action)
    requires Inv(s) && Busy(s) && Sending(s0, s, log) && Enabled(s, a) && Busy(Next(s, a))
    ensures Sending(s0, Next(s, a), Seen(log, s, a))
  {
    hide Count, Accounted, Deactivated, Deleted, Subscribed;
    match a
    case TrySend(ok) => if ok { DeliveryCounts(s0, s, log, s.sender.i, Next(s, a)); }
    case Chosen(k) => DeliveryCounts(s0, s, log, k, Next(s, a));
    case Interrupted(ch) => RemovalCounts(s0, s, log, ch);
    case _ =>
  }

  lemma NothingSeen(s: State)
    requires Enabled(s, TakeInbox)
    ensures Seen(EMPTY_LOG, s, TakeInbox) == EMPTY_LOG
  {}

  lemma {:induction false} SendAccounts(ss: seq<State>, acts: seq<Action>, k: nat, m: nat)
    requires IsSend(ss, acts, k, m)
    ensures Sending(ss[k], ss[m], History(ss, acts, k, m))
  {
    hide Sending, Next, Enabled, Inv, Seen;
    RunsKeepInv(ss, acts, m - 1);
    assert Stepped(ss[m - 1], acts[m - 1], ss[m]);
    if m == k + 1 {
      SendStarts(ss[k]);
      NothingSeen(ss[k]);
      assert History(ss, acts, k, k) == EMPTY_LOG;
    } else {
      SendAccounts(ss, acts, k, m - 1);
      SendGoesOn(ss[k], ss[m - 1], History(ss, acts, k, m - 1), acts[m - 1]);
    }
  }

  /** How often an action occurs. */
  function Times(acts: seq<Action>, a: Action): nat {
    multiset(acts)[a]
  }

  lemma OneMoreTime(acts: seq<Action>, n: nat, a: Action)
    requires n < |acts|
    ensures Times(acts[..n + 1], a) == Times(acts[..n], a) + if acts[n] == a then 1 else 0
  {
    assert acts[..n + 1] == acts[..n] + [acts[n]];
  }

  /** Only calls change what is live. */
  lemma StepLive(s: State, a: Action, ch: Channel)
    requires Enabled(s, a)
    ensures Next(s, a).live[ch] + (if a == Unsubscribe(ch) then 1 else 0) == s.live[ch] + if a == Subscribe(ch) then 1 else 0
  {
    hide FindIn, Deleted, Deactivated;
  }

  /** One step ends no more remove calls than there are. */
  lemma StepRemovals(s: State, a: Action, ch: Channel, log: Log)
    requires Inv(s) && Enabled(s, a)
    ensures Next(s, a).unchecked[ch] + Next(s, a).waiting[ch] + Seen(log, s, a).gone[ch]
         <= s.unchecked[ch] + s.waiting[ch] + log.gone[ch] + if a == Unsubscribe(ch) then 1 else 0
  {
    hide FindIn, Deleted, Deactivated, Subscribed;
    match a
    case CheckInbox(c) => assert c in s.unchecked;
    case Interrupted(c) => WaitingIsFound(s, c);
    case _ =>
  }

  lemma NoTimes(acts: seq<Action>)
    ensures forall a :: Times(acts[..0], a) == 0
  {}

  /** What is live was subscribed and not cancelled; a remove call in progress is a cancelled subscription's. */
  lemma {:induction false} BooksCount(ss: seq<State>, acts: seq<Action>, n: nat, ch: Channel)
    requires IsRun(ss, acts) && n < |ss|
    ensures ss[n].live[ch] + Times(acts[..n], Unsubscribe(ch)) == Times(acts[..n], Subscribe(ch))
    ensures ss[n].unchecked[ch] + ss[n].waiting[ch] <= Times(acts[..n], Unsubscribe(ch))
  {
    hide Times, Next, Enabled, Inv, Seen;
    if n == 0 {
      NoTimes(acts);
    } else {
      BooksCount(ss, acts, n - 1, ch);
      RunsKeepInv(ss, acts, n - 1);
      assert Stepped(ss[n - 1], acts[n - 1], ss[n]);
      StepLive(ss[n - 1], acts[n - 1], ch);
      StepRemovals(ss[n - 1], acts[n - 1], ch, EMPTY_LOG);
      OneMoreTime(acts, n - 1, Subscribe(ch));
      OneMoreTime(acts, n - 1, Unsubscribe(ch));
    }
  }

  /** A Send serves no removal but of a cancelled subscription. */
  lemma {:induction false} RemovalsCount(ss: seq<State>, acts: seq<Action>, k: nat, m: nat, ch: Channel)
    requires IsRun(ss, acts) && k <= m < |ss|
    ensures History(ss, acts, k, m).gone[ch] + ss[m].unchecked[ch] + ss[m].waiting[ch] <= Times(acts[..m], Unsubscribe(ch))
  {
    hide Times, Next, Enabled, Inv, Seen;
    if m == k {
      BooksCount(ss, acts, k, ch);
    } else {
      RemovalsCount(ss, acts, k, m - 1, ch);
      RunsKeepInv(ss, acts, m - 1);
      assert Stepped(ss[m - 1], acts[m - 1], ss[m]);
      StepRemovals(ss[m - 1], acts[m - 1], ch, History(ss, acts, k, m - 1));
      OneMoreTime(acts, m - 1, Unsubscribe(ch));
    }
  }

  /** A Send ends when no case but the feed's own is active. */
  lemma LastStep(s: State, a: Action)
    requires Inv(s) && Busy(s) && Enabled(s, a) && !Busy(Next(s, a))
    ensures s.sender.active == FIRST_SUB_SEND_CASE && Next(s, a).sender.NoSend?
  {
    hide Subscribed, Deleted, Deactivated;
    if a.Interrupted? { WaitingIsFound(s, a.ch); }
  }

  lemma NeverMore(acts: seq<Action>, k: nat, m: nat, a: Action)
    requires k <= m <= |acts|
    ensures Times(acts[..k], a) <= Times(acts[..m], a)
  {
    assert acts[..m] == acts[..k] + acts[k..m];
  }

  /**
   In every run, a Send that takes up the inbox in state k and returns nsent by
   the step after state m has sent its value to each channel once for every subscription not
   removed by k, save those removed before their turn, and to nobody else. It
   returns the number of sends, and leaves the cases less the removed ones. A
   channel that nobody unsubscribes gets the value as often as it was subscribed
   before k.
   */
  lemma SendDelivers(ss: seq<State>, acts: seq<Action>, k: nat, m: nat)
    requires IsSend(ss, acts, k, m) && m + 1 < |ss| && !Busy(ss[m + 1])
    ensures var log := History(ss, acts, k, m);
            && ss[m].sender.nsent == |log.delivered| && REMOVE_SUB !in log.delivered
            && (forall ch: Channel :: ch != REMOVE_SUB ==>
                  && log.delivered[ch] + log.cut[ch] == Owed(ss[k], ch) && log.cut[ch] <= log.gone[ch] <= Owed(ss[k], ch)
                  && Count(ss[m].sendCases, ch) == Owed(ss[k], ch) - log.gone[ch])
            && (forall ch :: ch != REMOVE_SUB && Times(acts[..m], Unsubscribe(ch)) == 0 ==>
                  log.delivered[ch] == ss[k].live[ch] == Times(acts[..k], Subscribe(ch)))
  {
    var log, s := History(ss, acts, k, m), ss[m];
    SendAccounts(ss, acts, k, m);
    RunsKeepInv(ss, acts, k);
    RunsKeepInv(ss, acts, m);
    assert Stepped(s, acts[m], ss[m + 1]);
    LastStep(s, acts[m]);
    hide Next, Enabled, History, Seen, Times;
    assert s.sendCases[..1] == [REMOVE_SUB];
    forall ch: Channel
      ensures log.delivered[ch] + log.cut[ch] == Owed(ss[k], ch) && log.cut[ch] <= log.gone[ch]
      ensures Count(s.sendCases, ch) + log.gone[ch] == Owed(ss[k], ch) + if ch == REMOVE_SUB then 1 else 0
    {
      assert Accounted(s.sendCases, 1, Owed(ss[k], ch), log, ch);
      assert Count([REMOVE_SUB], ch) == multiset{REMOVE_SUB}[ch];
    }
    assert Matched(ss[k], REMOVE_SUB);
    forall ch | ch != REMOVE_SUB && Times(acts[..m], Unsubscribe(ch)) == 0
      ensures log.delivered[ch] == ss[k].live[ch] == Times(acts[..k], Subscribe(ch))
    {
      NeverMore(acts, k, m, Unsubscribe(ch));
      BooksCount(ss, acts, k, ch);
      RemovalsCount(ss, acts, k, m, ch);
    }
  }

  /** In every run, no remove call misses its case, and each live subscription has one. */
  lemma FindNeverFails(ss: seq<State>, acts: seq<Action>, s: State, ch: Channel)
    requires IsRun(ss, acts) && s == ss[|ss| - 1]
    ensures !s.panicked
    ensures ch in s.waiting ==> FindIn(s.sendCases, ch) >= FIRST_SUB_SEND_CASE
    ensures ch in s.live ==> FindIn(s.inbox, ch) >= 0 || FindIn(s.sendCases, ch) >= FIRST_SUB_SEND_CASE
    ensures ch != REMOVE_SUB && ch !in s.live && ch !in s.unchecked && ch !in s.waiting ==>
              ch !in s.inbox && ch !in s.sendCases
  {
    RunsKeepInv(ss, acts, |ss| - 1);
    assert Matched(s, ch);
    if ch in s.waiting { WaitingIsFound(s, ch); }
    assert multiset(s.inbox)[ch] > 0 <==> ch in s.inbox;
    assert multiset(s.sendCases)[ch] > 0 <==> ch in s.sendCases;
  }

  /**
   In every run, a Send can go on: past the lock, with either outcome of a try, and
   in a select with every case still active and every waiting removal. No remove
   call that found nothing in the inbox waits for a feed that is idle.
   */
  lemma NobodyIsStuck(ss: seq<State>, acts: seq<Action>, s: State)
    requires IsRun(ss, acts) && s == ss[|ss| - 1]
    ensures s.sender.NoSend? ==> Enabled(s, TakeLock) && forall ch :: ch in s.waiting ==> Enabled(s, RemoveNow(ch))
    ensures s.sender.Locked? ==> Enabled(s, TakeInbox)
    ensures s.sender.Trying? ==> Enabled(s, EndScan) || (Enabled(s, TrySend(true)) && Enabled(s, TrySend(false)))
    ensures s.sender.Selecting? ==>
              && Enabled(s, Chosen(FIRST_SUB_SEND_CASE)) && s.sender.active <= |s.sendCases|
              && (forall k: nat :: 0 < k < s.sender.active ==> Enabled(s, Chosen(k)))
              && (forall ch :: ch in s.waiting ==> Enabled(s, Interrupted(ch)))
    ensures forall ch :: ch in s.unchecked ==> Enabled(s, CheckInbox(ch))
  {
    RunsKeepInv(ss, acts, |ss| - 1);
  }

  // ----- A Send takes boundedly many steps -----

  function Triangle(n: nat): nat {
    if n == 0 then 0 else Triangle(n - 1) + n + 1
  }

  lemma {:induction false} TriangleGrows(m: nat, n: nat)
    requires m < n
    ensures Triangle(m) + m + 2 <= Triangle(n)
  {
    if m < n - 1 { TriangleGrows(m, n - 1); }
  }

  predicate IsSendStep(a: Action) {
    a.TrySend? || a.EndScan? || a.Chosen? || a.Interrupted?
  }

  function CasesLeft(s: State): nat
    requires Busy(s)
  {
    |s.sendCases| + s.sender.active
  }

  function ScanLeft(s: State): nat
    requires Busy(s)
  {
    if s.sender.Trying? && s.sender.i <= s.sender.active then s.sender.active - s.sender.i + 1 else 0
  }

  function Rank(s: State): nat
    requires Busy(s)
  {
    Triangle(CasesLeft(s)) + ScanLeft(s)
  }

  lemma RemovalDescends(s: State, a: Action)
    requires Inv(s) && Enabled(s, a) && a.Interrupted? && Busy(Next(s, a))
    ensures Rank(Next(s, a)) < Rank(s)
  {
    hide Subscribed, Matched, Triangle;
    var s' := Next(s, a);
    StepKeeps(s, a);
    WaitingIsFound(s, a.ch);
    if CasesLeft(s') < CasesLeft(s) { TriangleGrows(CasesLeft(s'), CasesLeft(s)); }
  }

  /** A removal shortens the list, a delivery the active part, a failed try the scan. */
  lemma SendStepDescends(s: State, a: Action)
    requires Inv(s) && Enabled(s, a) && IsSendStep(a) && Busy(Next(s, a))
    ensures Rank(Next(s, a)) < Rank(s)
  {
    hide Subscribed, Matched, Triangle;
    if a.Interrupted? {
      RemovalDescends(s, a);
    } else {
      var s' := Next(s, a);
      StepKeeps(s, a);
      if CasesLeft(s') < CasesLeft(s) { TriangleGrows(CasesLeft(s'), CasesLeft(s)); }
    }
  }

  lemma OtherStepKeepsRank(s: State, a: Action)
    requires Inv(s) && Busy(s) && Enabled(s, a) && !IsSendStep(a)
    ensures Busy(Next(s, a)) && Rank(Next(s, a)) == Rank(s)
  {}

  /** The actions are enabled one after the other and the same Send stays in progress. */
  predicate DuringSend(s: State, acts: seq<Action>)
    decreases |acts|
  {
    Busy(s) && (acts == [] || (Enabled(s, acts[0]) && DuringSend(Next(s, acts[0]), acts[1..])))
  }

  function SendSteps(acts: seq<Action>): nat {
    if acts == [] then 0 else (if IsSendStep(acts[0]) then 1 else 0) + SendSteps(acts[1..])
  }

  /** Whatever else goes on, one Send takes no more steps than its rank at the start. */
  lemma {:induction false} SendIsBounded(s: State, acts: seq<Action>)
    requires Inv(s) && DuringSend(s, acts)
    ensures SendSteps(acts) <= Rank(s)
    decreases |acts|
  {
    hide Inv, Enabled, Next, Rank;
    if acts != [] {
      StepKeeps(s, acts[0]);
      if IsSendStep(acts[0]) { SendStepDescends(s, acts[0]); } else { OtherStepKeepsRank(s, acts[0]); }
      SendIsBounded(Next(s, acts[0]), acts[1..]);
    }
  }
}
