/** The fan-out of system log lines as a machine: one sender, any number of listeners, every interleaving. */
module SyslogFanOut {
  import opened Common

  const CAPACITY := 100

  /** A send that does not block: a full channel loses the message. */
  function Admit(pending: seq<string>, msg: string): seq<string> {
    if |pending| < CAPACITY then pending + [msg] else pending
  }

  /** One listener, with the history the program does not keep: what it took, was offered and lost. */
  datatype Tap = Tap(pending: seq<string>, closed: bool, joined: nat, offered: seq<string>, taken: seq<string>, lost: nat) {

    function Heard(): seq<string> {
      taken + pending
    }

    function Offer(msg: string): Tap {
      if closed then this
      else this.(pending := Admit(pending, msg), offered := offered + [msg], lost := if |pending| < CAPACITY then lost else lost + 1)
    }
  }

  /** `cursor` counts the clients the current message still has to be offered to; above 0 the lock is held. */
  datatype System = System(said: seq<string>, taps: seq<Tap>, clients: seq<nat>, cursor: nat)

  datatype Event = Say(msg: string) | Send | Listen | Recv(id: nat) | Close(id: nat)

  const SILENT := System([], [], [], 0)

  predicate Possible(s: System, ev: Event) {
    match ev
    case Say(_) => s.cursor == 0
    case Send => 0 < s.cursor <= |s.clients| && s.clients[s.cursor - 1] < |s.taps| && s.said != []
    case Listen => s.cursor == 0
    case Recv(id) => id < |s.taps| && s.taps[id].pending != []
    case Close(id) => id < |s.taps|
  }

  /** One turn of the loop over the clients, from the last to the first; a closed one is cut out where it stands. */
  function Sending(s: System): System
    requires Possible(s, Send)
  {
    var i := s.cursor - 1;
    var tap := s.taps[s.clients[i]];
    if tap.closed then s.(cursor := i, clients := s.clients[..i] + s.clients[i + 1..])
    else s.(cursor := i, taps := s.taps[s.clients[i] := tap.Offer(s.said[|s.said| - 1])])
  }

  function Receiving(tap: Tap): Tap
    requires tap.pending != []
  {
    tap.(pending := tap.pending[1..], taken := tap.taken + [tap.pending[0]])
  }

  function After(s: System, ev: Event): System
    requires Possible(s, ev)
  {
    match ev
    case Say(msg) => s.(said := s.said + [msg], cursor := |s.clients|)
    case Send => Sending(s)
    case Listen => s.(taps := s.taps + [Tap([], false, |s.said|, [], [], 0)], clients := s.clients + [|s.taps|])
    case Recv(id) => s.(taps := s.taps[id := Receiving(s.taps[id])])
    case Close(id) => s.(taps := s.taps[id := s.taps[id].(closed := true)])
  }

  // ---------------------------------------------------------------- one listener

  /** What was heard is what was offered, in order, without the lost ones; nothing else was offered than what was said. */
  ghost predicate Faithful(tap: Tap, said: seq<string>) {
    && |tap.pending| <= CAPACITY
    && Subsequence(tap.Heard(), tap.offered)
    && |tap.Heard()| + tap.lost == |tap.offered|
    && tap.joined <= |said|
    && tap.offered <= said[tap.joined..]
  }

  /** An open listener loses a message exactly when a hundred are waiting for it already. */
  lemma LostIffFull(tap: Tap, msg: string)
    requires |tap.pending| <= 100 && !tap.closed
    ensures tap.Offer(msg).lost == tap.lost + (if |tap.pending| == 100 then 1 else 0)
    ensures tap.Offer(msg).pending == if |tap.pending| == 100 then tap.pending else tap.pending + [msg]
  {
  }

  lemma OfferStaysFaithful(tap: Tap, said: seq<string>)
    requires Faithful(tap, said) && !tap.closed && |tap.offered| + 1 == |said| - tap.joined
    ensures Faithful(tap.Offer(said[|said| - 1]), said)
  {
    var msg := said[|said| - 1];
    var tap' := tap.Offer(msg);
    var at :| PicksInOrder(at, tap.Heard(), tap.offered);
    if |tap.pending| < CAPACITY {
      assert tap'.Heard() == tap.Heard() + [msg];
      assert PicksInOrder(at + [|tap.offered|], tap'.Heard(), tap'.offered);
    } else {
      assert PicksInOrder(at, tap'.Heard(), tap'.offered);
    }
  }

  lemma ReceivingStaysFaithful(tap: Tap, said: seq<string>)
    requires Faithful(tap, said) && tap.pending != []
    ensures Faithful(Receiving(tap), said)
  {
    assert Receiving(tap).Heard() == tap.Heard();
  }

  lemma NothingLostIsEverythingHeard(tap: Tap, said: seq<string>)
    requires Faithful(tap, said)
    ensures tap.lost == 0 <==> tap.Heard() == tap.offered
  {
    if tap.lost == 0 {
      var at :| PicksInOrder(at, tap.Heard(), tap.offered);
      forall i | 0 <= i < |at|
        ensures at[i] == i
      {
        AllPicked(at, tap.Heard(), tap.offered, i);
      }
    }
  }

  /** Increasing positions that are as many as there are can only be all of them. */
  lemma {:induction false} AllPicked<T>(at: seq<int>, part: seq<T>, whole: seq<T>, i: nat)
    requires PicksInOrder(at, part, whole) && |part| == |whole| && i < |at|
    ensures at[i] == i
  {
    AtLeast(at, part, whole, i);
    AtMost(at, part, whole, i);
  }

  lemma {:induction false} AtLeast<T>(at: seq<int>, part: seq<T>, whole: seq<T>, i: nat)
    requires PicksInOrder(at, part, whole) && i < |at|
    ensures i <= at[i]
  {
    if i > 0 {
      AtLeast(at, part, whole, i - 1);
    }
  }

  lemma {:induction false} AtMost<T>(at: seq<int>, part: seq<T>, whole: seq<T>, i: nat)
    requires PicksInOrder(at, part, whole) && i < |at|
    ensures at[i] <= |whole| - |at| + i
    decreases |at| - i
  {
    if i + 1 < |at| {
      AtMost(at, part, whole, i + 1);
    }
  }

  // ---------------------------------------------------------------- the whole system

  /** The client at position k has been offered everything since it joined, but for the message under way. */
  predicate Served(s: System, k: nat)
    requires k < |s.clients| && s.clients[k] < |s.taps|
  {
    var tap := s.taps[s.clients[k]];
    tap.closed || |tap.offered| + (if k < s.cursor then 1 else 0) == |s.said| - tap.joined
  }

  /** The clients are listeners, each once, and every open listener is one. */
  ghost predicate Listed(clients: seq<nat>, taps: seq<Tap>) {
    && (forall k :: 0 <= k < |clients| ==> clients[k] < |taps|)
    && (forall j, k :: 0 <= j < k < |clients| ==> clients[j] != clients[k])
    && (forall id :: 0 <= id < |taps| && !taps[id].closed ==> id in clients)
  }

  ghost predicate AllFaithful(taps: seq<Tap>, said: seq<string>) {
    forall id :: 0 <= id < |taps| ==> Faithful(taps[id], said)
  }

  ghost predicate Inv(s: System) {
    && s.cursor <= |s.clients|
    && (s.cursor > 0 ==> s.said != [])
    && Listed(s.clients, s.taps)
    && AllFaithful(s.taps, s.said)
    && (forall k :: 0 <= k < |s.clients| ==> Served(s, k))
  }

  lemma SayKeepsInv(s: System, msg: string)
    requires Inv(s) && Possible(s, Say(msg))
    ensures Inv(After(s, Say(msg)))
  {
    var s' := After(s, Say(msg));
    forall id | 0 <= id < |s'.taps|
      ensures Faithful(s'.taps[id], s'.said)
    {
      var joined := s.taps[id].joined;
      assert s'.said[joined..] == s.said[joined..] + [msg];
    }
    forall k | 0 <= k < |s'.clients|
      ensures Served(s', k)
    {
      assert Served(s, k);
    }
  }

  /** A closed client is cut out: what comes behind it has had its turn. */
  lemma CutKeepsInv(s: System)
    requires Inv(s) && Possible(s, Send) && s.taps[s.clients[s.cursor - 1]].closed
    ensures Inv(Sending(s))
  {
    hide AllFaithful;
    var i, s' := s.cursor - 1, Sending(s);
    assert forall k :: 0 <= k < |s'.clients| ==> s'.clients[k] == s.clients[if k < i then k else k + 1];
    forall id | 0 <= id < |s'.taps| && !s'.taps[id].closed
      ensures id in s'.clients
    {
      var k :| 0 <= k < |s.clients| && s.clients[k] == id;
      assert s'.clients[if k < i then k else k - 1] == id;
    }
    forall k | 0 <= k < |s'.clients|
      ensures Served(s', k)
    {
      assert Served(s, if k < i then k else k + 1);
    }
  }

  lemma OfferKeepsInv(s: System)
    requires Inv(s) && Possible(s, Send) && !s.taps[s.clients[s.cursor - 1]].closed
    ensures Inv(Sending(s))
  {
    var i, s' := s.cursor - 1, Sending(s);
    assert Served(s, i);
    OfferStaysFaithful(s.taps[s.clients[i]], s.said);
    hide Faithful, Admit;
    forall k | 0 <= k < |s'.clients|
      ensures Served(s', k)
    {
      assert Served(s, k);
    }
  }

  lemma FreshIsFaithful(said: seq<string>)
    ensures Faithful(Tap([], false, |said|, [], [], 0), said)
  {
    assert PicksInOrder<string>([], [], []);
  }

  lemma OneMoreListed(clients: seq<nat>, taps: seq<Tap>, tap: Tap)
    requires Listed(clients, taps)
    ensures Listed(clients + [|taps|], taps + [tap])
  {
    assert (clients + [|taps|])[|clients|] == |taps|;
  }

  lemma ListenKeepsInv(s: System)
    requires Inv(s) && Possible(s, Listen)
    ensures Inv(After(s, Listen))
  {
    var s', tap := After(s, Listen), Tap([], false, |s.said|, [], [], 0);
    FreshIsFaithful(s.said);
    OneMoreListed(s.clients, s.taps, tap);
    hide Faithful;
    assert AllFaithful(s'.taps, s'.said);
    forall k | 0 <= k < |s'.clients|
      ensures Served(s', k)
    {
      if k < |s.clients| {
        assert Served(s, k);
      }
      hide Listed, AllFaithful;
    }
    hide Listed, AllFaithful, Served;
  }

  /** A listener's own steps change nothing that the sender relies on. */
  lemma OwnStepKeepsInv(s: System, ev: Event)
    requires Inv(s) && Possible(s, ev) && (ev.Recv? || ev.Close?)
    ensures Inv(After(s, ev))
  {
    if ev.Recv? {
      ReceivingStaysFaithful(s.taps[ev.id], s.said);
    }
    assert Faithful(After(s, ev).taps[ev.id], s.said);
    hide Faithful;
    forall k | 0 <= k < |s.clients|
      ensures Served(After(s, ev), k)
    {
      assert Served(s, k);
    }
  }

  lemma StepKeepsInv(s: System, ev: Event)
    requires Inv(s) && Possible(s, ev)
    ensures Inv(After(s, ev))
  {
    hide Inv, Sending;
    match ev
    case Say(msg) => SayKeepsInv(s, msg);
    case Send =>
      if s.taps[s.clients[s.cursor - 1]].closed {
        CutKeepsInv(s);
      } else {
        OfferKeepsInv(s);
      }
    case Listen => ListenKeepsInv(s);
    case Recv(_) => OwnStepKeepsInv(s, ev);
    case Close(_) => OwnStepKeepsInv(s, ev);
  }

  /** A history: each state follows from the one before by its event. */
  ghost predicate History(states: seq<System>, events: seq<Event>) {
    && |states| == |events| + 1
    && states[0] == SILENT
    && forall n :: 0 <= n < |events| ==> Possible(states[n], events[n]) && After(states[n], events[n]) == states[n + 1]
  }

  lemma {:induction false} HistoryKeepsInv(states: seq<System>, events: seq<Event>, n: nat)
    requires History(states, events) && n < |states|
    ensures Inv(states[n])
  {
    if n > 0 {
      HistoryKeepsInv(states, events, n - 1);
      assert After(states[n - 1], events[n - 1]) == states[n];
      StepKeepsInv(states[n - 1], events[n - 1]);
    }
  }

  /**
   In every history an open listener was offered, once each and in order, exactly the messages said since
   it joined, but for one still under way; what it heard is those without the ones that found it full.
   */
  lemma EveryListenerIsServed(states: seq<System>, events: seq<Event>, n: nat, id: nat)
    requires History(states, events) && n < |states| && id < |states[n].taps|
    ensures var s, tap := states[n], states[n].taps[id];
            && tap.joined <= |s.said| && tap.offered <= s.said[tap.joined..]
            && (!tap.closed ==> |s.said| - tap.joined - 1 <= |tap.offered|)
            && (!tap.closed && s.cursor == 0 ==> tap.offered == s.said[tap.joined..])
            && Subsequence(tap.Heard(), tap.offered)
            && |tap.Heard()| + tap.lost == |tap.offered|
            && (tap.lost == 0 <==> tap.Heard() == tap.offered)
  {
    var s, tap := states[n], states[n].taps[id];
    HistoryKeepsInv(states, events, n);
    NothingLostIsEverythingHeard(tap, s.said);
    if !tap.closed {
      var k :| 0 <= k < |s.clients| && s.clients[k] == id;
      assert Served(s, k);
    }
  }

  /** A listener that never has a full channel hears everything it was offered. */
  lemma {:induction false} KeepingUpLosesNothing(states: seq<System>, events: seq<Event>, n: nat, id: nat)
    requires History(states, events) && n < |states| && id < |states[n].taps|
    requires forall m :: 0 <= m <= n && id < |states[m].taps| ==> |states[m].taps[id].pending| < CAPACITY
    ensures states[n].taps[id].lost == 0 && states[n].taps[id].Heard() == states[n].taps[id].offered
  {
    assert n > 0;
    assert After(states[n - 1], events[n - 1]) == states[n];
    if id < |states[n - 1].taps| {
      KeepingUpLosesNothing(states, events, n - 1, id);
    }
    EveryListenerIsServed(states, events, n, id);
  }
}

/** The log server as the program writes it. */
module Syslog {
  import opened SyslogFanOut

  class Listener {
    var channel: seq<string>
    var closed: bool

    constructor ()
      ensures channel == [] && !closed
    {
      channel, closed := [], false;
    }

    method Send(msg: string) returns (open: bool)
      modifies this`channel
      ensures open == !closed
      ensures channel == Got(closed, old(channel), msg)
    {
      if closed {
        return false;
      }
      if |channel| < CAPACITY {
        channel := channel + [msg];
      }
      open := true;
    }

    /** Blocks while the channel is empty, so it returns only when it is not. */
    method Recv() returns (msg: string)
      requires channel != []
      modifies this`channel
      ensures [msg] + channel == old(channel)
    {
      msg := channel[0];
      channel := channel[1..];
    }

    method Close()
      modifies this`closed
      ensures closed
    {
      closed := true;
    }
  }

  /** What a channel holds after a send. */
  function Got(closed: bool, pending: seq<string>, msg: string): seq<string> {
    if closed then pending else Admit(pending, msg)
  }

  ghost predicate Distinct(clients: seq<Listener>) {
    forall j, k :: 0 <= j < k < |clients| ==> clients[j] != clients[k]
  }

  ghost function Shut(clients: seq<Listener>): set<Listener>
    reads clients`closed
  {
    set l | l in clients && l.closed
  }

  /** The others, in their order. */
  function Without(clients: seq<Listener>, shut: set<Listener>): seq<Listener> {
    if clients == [] then []
    else (if clients[0] in shut then [] else [clients[0]]) + Without(clients[1..], shut)
  }

  lemma {:induction false} OthersStay(clients: seq<Listener>, shut: set<Listener>, l: Listener)
    ensures l in Without(clients, shut) <==> l in clients && l !in shut
  {
    if clients != [] {
      OthersStay(clients[1..], shut, l);
      assert clients == [clients[0]] + clients[1..];
    }
  }

  lemma {:induction false} OthersStayDistinct(clients: seq<Listener>, shut: set<Listener>)
    requires Distinct(clients)
    ensures Distinct(Without(clients, shut))
  {
    if clients != [] {
      OthersStayDistinct(clients[1..], shut);
      OthersStay(clients[1..], shut, clients[0]);
    }
  }

  /** append(s[:i], s[i+1:]...) */
  function Cut<T>(s: seq<T>, i: nat): seq<T>
    requires i < |s|
  {
    s[..i] + s[i + 1..]
  }

  /** The list when the loop has come down to i. */
  ghost function Remaining(all: seq<Listener>, shut: set<Listener>, i: nat): seq<Listener>
    requires i <= |all|
  {
    all[..i] + Without(all[i..], shut)
  }

  lemma TurnOfTheLoop(all: seq<Listener>, shut: set<Listener>, i: nat)
    requires i < |all| && shut == Shut(all)
    ensures var s := Remaining(all, shut, i + 1);
            && i < |s| && s[i] == all[i]
            && Remaining(all, shut, i) == if all[i].closed then Cut(s, i) else s
  {
  }

  lemma WholeLoop(all: seq<Listener>)
    ensures var shut := Shut(all); Remaining(all, shut, |all|) == all && Remaining(all, shut, 0) == Without(all, shut)
  {
  }

  /** The clients from i on have been offered the line, the others not yet. */
  ghost predicate Offered(all: seq<Listener>, before: seq<seq<string>>, i: nat, msg: string)
    reads all
  {
    && |before| == |all|
    && forall k :: 0 <= k < |all| ==> all[k].channel == if k < i then before[k] else Got(all[k].closed, before[k], msg)
  }

  ghost function Channels(clients: seq<Listener>): seq<seq<string>>
    reads clients`channel
  {
    if clients == [] then [] else [clients[0].channel] + Channels(clients[1..])
  }

  lemma {:induction false} NothingOffered(clients: seq<Listener>, msg: string)
    ensures Offered(clients, Channels(clients), |clients|, msg)
  {
    if clients != [] {
      NothingOffered(clients[1..], msg);
      assert forall k :: 0 < k < |clients| ==> clients[k] == clients[1..][k - 1];
    }
  }

  class SysLog {
    var clients: seq<Listener>

    constructor ()
      ensures clients == []
    {
      clients := [];
    }

    method Listen() returns (listener: Listener)
      requires Distinct(clients)
      modifies this
      ensures fresh(listener) && listener.channel == [] && !listener.closed
      ensures clients == old(clients) + [listener] && Distinct(clients)
    {
      listener := new Listener();
      clients := clients + [listener];
    }

    /** One turn of the loop: the client at i gets the line, or is cut out of the list. */
    method OfferTo(i: nat, msg: string, ghost all: seq<Listener>, ghost before: seq<seq<string>>)
      requires i < |clients| && i < |all| && clients[i] == all[i]
      requires Distinct(all) && Offered(all, before, i + 1, msg)
      modifies this, all[i..i + 1]`channel
      ensures clients == if all[i].closed then Cut(old(clients), i) else old(clients)
      ensures Offered(all, before, i, msg)
    {
      hide Admit;
      assert all[i..i + 1][0] == all[i];
      var open := clients[i].Send(msg);
      if !open {
        clients := Cut(clients, i);
      }
    }

    /** One line, under the lock: offered to every open client once; the closed ones are cut out in place. */
    method Deliver(msg: string)
      requires Distinct(clients)
      modifies this, clients`channel
      ensures clients == Without(old(clients), Shut(old(clients))) && Distinct(clients)
      ensures Offered(old(clients), old(Channels(clients)), 0, msg)
    {
      hide *;
      ghost var all, shut, before := clients, Shut(clients), Channels(clients);
      OthersStayDistinct(all, shut);
      WholeLoop(all);
      NothingOffered(all, msg);
      for i := |clients| downto 0
        invariant clients == Remaining(all, shut, i)
        invariant Offered(all, before, i, msg)
      {
        TurnOfTheLoop(all, shut, i);
        OfferTo(i, msg, all, before);
      }
    }
  }
}
