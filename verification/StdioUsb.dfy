/**
 * The USB standard output of both boards: text that cannot be sent at once waits in a
 * lossy ring buffer, and a marker on the wire announces what was lost.
 */
module StdioUsb {
  import opened Common
  import opened RingBuffer

  const OVERFLOW_MSG: string := "---DATA DROPPED---\r\n\0"
  const MUTEX_MSG: string := "---DATA LOST MUTEX---\r\n\0"

  // ---- Specification ----

  /** What an observer of the driver could name: waiting text, due markers, a stuck lock, and the wire. */
  datatype State = State(waiting: string, overflow: bool, dataDrop: bool, locked: bool, wire: string)

  const INITIAL := State("", false, false, false, "")

  /** How many bytes of each marker and of the waiting text the endpoint takes. */
  datatype Taken = Taken(overflow: nat, refusal: nat, text: nat)

  /** Appends text, keeping the last `cap` bytes. */
  function Write(s: State, text: string, cap: nat): State {
    if s.locked then s.(dataDrop := true)
    else s.(waiting := Last(s.waiting + text, cap), overflow := s.overflow || |s.waiting| + |text| > cap)
  }

  /** The due overflow marker; cut short, it leaves the lock held. */
  function SendOverflow(s: State, t: Taken): State {
    if !s.overflow then s
    else if t.overflow >= |OVERFLOW_MSG| then s.(overflow := false, wire := s.wire + OVERFLOW_MSG)
    else s.(locked := true, wire := s.wire + OVERFLOW_MSG[..t.overflow])
  }

  function SendRefusal(s: State, t: Taken): State {
    if s.locked || !s.dataDrop then s
    else if t.refusal >= |MUTEX_MSG| then s.(dataDrop := false, wire := s.wire + MUTEX_MSG)
    else s.(locked := true, wire := s.wire + MUTEX_MSG[..t.refusal])
  }

  function SendWaiting(s: State, t: Taken): State {
    if s.locked then s
    else
      var n := if t.text <= |s.waiting| then t.text else |s.waiting|;
      s.(waiting := s.waiting[n..], wire := s.wire + s.waiting[..n])
  }

  function Drain(s: State, t: Taken): State {
    if s.locked then s else SendWaiting(SendRefusal(SendOverflow(s, t), t), t)
  }

  /** Text goes straight out when nothing waits; the rest, and everything otherwise, is put in the ring. */
  function Out(s: State, text: string, port: bool, t: Taken, direct: nat, cap: nat): State {
    var s1 := if port then Drain(s, t) else s;
    if port && !s1.locked && s1.waiting == "" then
      var k := if direct <= |text| then direct else |text|;
      Write(s1.(wire := s1.wire + text[..k]), text[k..], cap)
    else
      Write(s1, text, cap)
  }

  datatype Event =
    | Print(text: string, port: bool, taken: Taken, direct: nat)
    | Background(taken: Taken)
    | Refused

  function Step(s: State, e: Event, cap: nat): State {
    match e
    case Print(text, port, taken, direct) => Out(s, text, port, taken, direct, cap)
    case Background(taken) => Drain(s, taken)
    case Refused => s.(dataDrop := true)
  }

  function Run(es: seq<Event>, cap: nat): State {
    if es == [] then INITIAL else Step(Run(es[..|es| - 1], cap), es[|es| - 1], cap)
  }

  // ---- What the wire shows of what was written ----

  /** A stretch of the written text: sent, or overwritten before it was sent; or a sign that writes were refused. */
  datatype Segment = Kept(text: string) | Gap(lost: string) | Refusal

  function Text(s: Segment): string {
    match s case Kept(text) => text case Gap(lost) => lost case Refusal => ""
  }

  function Shown(s: Segment): string {
    match s case Kept(text) => text case Gap(_) => OVERFLOW_MSG case Refusal => MUTEX_MSG
  }

  /** The text the segments stand for. */
  function Accepted(history: seq<Segment>): string {
    if history == [] then "" else Accepted(history[..|history| - 1]) + Text(history[|history| - 1])
  }

  /** The segments as they appear on the wire. */
  function Render(history: seq<Segment>): string {
    if history == [] then "" else Render(history[..|history| - 1]) + Shown(history[|history| - 1])
  }

  lemma Append(history: seq<Segment>, s: Segment)
    ensures Accepted(history + [s]) == Accepted(history) + Text(s)
    ensures Render(history + [s]) == Render(history) + Shown(s)
  {
    assert (history + [s])[..|history|] == history;
  }

  /** The segments on the wire, the text overwritten since the last marker, and a marker cut short. */
  datatype Account = Account(history: seq<Segment>, pending: string, torn: string)

  /** Each gap has lost something. */
  ghost predicate RealGaps(history: seq<Segment>) {
    forall g :: g in history && g.Gap? ==> g.lost != ""
  }

  ghost predicate Explains(a: Account, s: State, written: string) {
    && RealGaps(a.history)
    && written == (Accepted(a.history) + a.pending) + s.waiting
    && s.wire == Render(a.history) + a.torn
    && (s.overflow <==> a.pending != "")
    && (if s.locked then (s.overflow && a.torn < OVERFLOW_MSG) || (s.dataDrop && a.torn < MUTEX_MSG) else a.torn == "")
  }

  // ---- Every run is explained ----

  lemma ExplainOverflow(a: Account, s: State, written: string, t: Taken) returns (a': Account)
    requires Explains(a, s, written) && !s.locked
    ensures Explains(a', SendOverflow(s, t), written)
  {
    if !s.overflow {
      a' := a;
    } else if t.overflow >= |OVERFLOW_MSG| {
      Append(a.history, Gap(a.pending));
      a' := Account(a.history + [Gap(a.pending)], "", "");
      NoTail(Accepted(a'.history));
      NoTail(Render(a.history));
      NoTail(Render(a'.history));
    } else {
      NoTail(Render(a.history));
      a' := a.(torn := OVERFLOW_MSG[..t.overflow]);
    }
  }

  lemma NoTail(s: string)
    ensures s + "" == s
  {}

  /** Draining leaves the lock held exactly when a due marker does not fit whole. */
  lemma DrainLocks(s: State, t: Taken)
    ensures Drain(s, t).locked <==>
      s.locked || (s.overflow && t.overflow < |OVERFLOW_MSG|) || (s.dataDrop && t.refusal < |MUTEX_MSG|)
  {}

  lemma ExplainRefusal(a: Account, s: State, written: string, t: Taken) returns (a': Account)
    requires Explains(a, s, written)
    ensures Explains(a', SendRefusal(s, t), written)
  {
    if s.locked || !s.dataDrop {
      a' := a;
    } else if t.refusal >= |MUTEX_MSG| {
      Append(a.history, Refusal);
      a' := a.(history := a.history + [Refusal]);
      NoTail(Accepted(a.history));
      NoTail(Render(a.history));
      NoTail(Render(a'.history));
    } else {
      NoTail(Render(a.history));
      a' := a.(torn := MUTEX_MSG[..t.refusal]);
    }
  }

  lemma ExplainSent(a: Account, s: State, written: string, n: nat) returns (a': Account)
    requires Explains(a, s, written) && !s.locked && !s.overflow && n <= |s.waiting|
    ensures Explains(a', s.(waiting := s.waiting[n..], wire := s.wire + s.waiting[..n]), written)
  {
    var front, back := s.waiting[..n], s.waiting[n..];
    Append(a.history, Kept(front));
    a' := a.(history := a.history + [Kept(front)]);
    NoTail(Accepted(a.history));
    NoTail(Accepted(a'.history));
    NoTail(Render(a.history));
    NoTail(Render(a'.history));
    Regroup(Accepted(a.history), front, back);
    assert front + back == s.waiting;
  }

  lemma ExplainDrain(a: Account, s: State, written: string, t: Taken) returns (a': Account)
    requires Explains(a, s, written)
    ensures Explains(a', Drain(s, t), written)
  {
    a' := a;
    if !s.locked {
      a' := ExplainOverflow(a, s, written, t);
      var s1 := SendOverflow(s, t);
      a' := ExplainRefusal(a', s1, written, t);
      var s2 := SendRefusal(s1, t);
      if !s2.locked {
        a' := ExplainSent(a', s2, written, if t.text <= |s2.waiting| then t.text else |s2.waiting|);
      }
    }
  }

  lemma ExplainWrite(a: Account, s: State, written: string, text: string, cap: nat) returns (a': Account)
    requires Explains(a, s, written)
    ensures Explains(a', Write(s, text, cap), if s.locked then written else written + text)
  {
    a' := a;
    if !s.locked {
      var all, base := s.waiting + text, Accepted(a.history) + a.pending;
      var kept := Last(all, cap);
      var lost := all[..|all| - |kept|];
      a' := a.(pending := a.pending + lost);
      assert all == lost + kept;
      Regroup(base, s.waiting, text);
      Regroup(base, lost, kept);
      Regroup(Accepted(a.history), a.pending, lost);
    }
  }

  /** Text handed straight to the endpoint while nothing waits. */
  lemma ExplainDirect(a: Account, s: State, written: string, text: string) returns (a': Account)
    requires Explains(a, s, written) && !s.locked && !s.overflow && s.waiting == ""
    ensures Explains(a', s.(wire := s.wire + text), written + text)
  {
    Append(a.history, Kept(text));
    a' := a.(history := a.history + [Kept(text)]);
    NoTail(Accepted(a.history));
    NoTail(Accepted(a'.history));
    NoTail(Render(a.history));
    NoTail(Render(a'.history));
  }

  lemma ExplainParts(a: Account, s: State, written: string, front: string, back: string, cap: nat) returns (a': Account)
    requires Explains(a, s, written) && !s.locked && !s.overflow && s.waiting == ""
    ensures Explains(a', Write(s.(wire := s.wire + front), back, cap), (written + front) + back)
  {
    var mid := ExplainDirect(a, s, written, front);
    a' := ExplainWrite(mid, s.(wire := s.wire + front), written + front, back, cap);
  }

  /** Part of the text goes straight out, the rest into the ring. */
  lemma ExplainSplit(a: Account, s: State, written: string, text: string, k: nat, cap: nat) returns (a': Account)
    requires Explains(a, s, written) && !s.locked && !s.overflow && s.waiting == "" && k <= |text|
    ensures Explains(a', Write(s.(wire := s.wire + text[..k]), text[k..], cap), written + text)
  {
    var front, back := text[..k], text[k..];
    a' := ExplainParts(a, s, written, front, back, cap);
    Halves(text, k);
    Rejoin(a', Write(s.(wire := s.wire + front), back, cap), written, front, back, text);
  }

  lemma Halves(text: string, k: nat)
    requires k <= |text|
    ensures text == text[..k] + text[k..]
  {}

  lemma Rejoin(a: Account, s: State, written: string, front: string, back: string, text: string)
    requires Explains(a, s, (written + front) + back) && text == front + back
    ensures Explains(a, s, written + text)
  {
    Regroup(written, front, back);
  }

  lemma ExplainOut(a: Account, s: State, written: string, text: string, port: bool, t: Taken, direct: nat, cap: nat)
    returns (a': Account)
    requires Explains(a, s, written)
    ensures var s' := Out(s, text, port, t, direct, cap);
      Explains(a', s', if s'.locked then written else written + text)
  {
    a' := a;
    var s1 := s;
    if port {
      s1 := Drain(s, t);
      a' := ExplainDrain(a, s, written, t);
    }
    if port && !s1.locked && s1.waiting == "" {
      a' := ExplainSplit(a', s1, written, text, if direct <= |text| then direct else |text|, cap);
    } else {
      a' := ExplainWrite(a', s1, written, text, cap);
    }
  }

  const CUT_SHORT := Background(Taken(0, 0, 0))

  /** It happens: text overflows a small buffer, and the host takes nothing of the marker. */
  lemma MarkerCutShort()
    ensures Run([Print("ab", false, Taken(0, 0, 0), 0)] + [CUT_SHORT], 1).locked
  {
    var first := Print("ab", false, Taken(0, 0, 0), 0);
    assert [first][..0] == [] && ([first] + [CUT_SHORT])[..1] == [first];
    assert Run([first], 1) == Step(INITIAL, first, 1);
    assert Run([first], 1).overflow;
  }

  /** The texts of a run that were not refused, in order. */
  function Written(es: seq<Event>, cap: nat): string {
    if es == [] then ""
    else
      var e, rest := es[|es| - 1], es[..|es| - 1];
      if e.Print? && !Run(es, cap).locked then Written(rest, cap) + e.text else Written(rest, cap)
  }

  /**
   * In every run the wire shows the accepted text, with each lost stretch replaced by
   * exactly one overflow marker, up to what still waits; a lost stretch that no marker
   * stands for yet directly precedes the waiting text and keeps the overflow flag set.
   */
  lemma {:induction false} RunExplained(es: seq<Event>, cap: nat)
    ensures exists a :: Explains(a, Run(es, cap), Written(es, cap))
  {
    if es == [] {
      assert Explains(Account([], "", ""), Run(es, cap), Written(es, cap));
    } else {
      var e, rest := es[|es| - 1], es[..|es| - 1];
      RunExplained(rest, cap);
      var s, written := Run(rest, cap), Written(rest, cap);
      var a :| Explains(a, s, written);
      var a';
      match e {
        case Print(text, port, t, direct) => a' := ExplainOut(a, s, written, text, port, t, direct, cap);
        case Background(t) => a' := ExplainDrain(a, s, written, t);
        case Refused => a' := a;
      }
      assert Explains(a', Run(es, cap), Written(es, cap));
    }
  }

  /** Once a marker has been cut short nothing more is ever sent, and nothing more is accepted. */
  lemma {:induction false} LockedForever(es: seq<Event>, more: seq<Event>, cap: nat)
    requires Run(es, cap).locked
    ensures var s, s' := Run(es, cap), Run(es + more, cap);
      s'.locked && s'.wire == s.wire && s'.waiting == s.waiting && Written(es + more, cap) == Written(es, cap)
  {
    if more == [] {
      assert es + more == es;
    } else {
      LockedForever(es, more[..|more| - 1], cap);
      assert (es + more)[..|es + more| - 1] == es + more[..|more| - 1];
    }
  }

  predicate RefusesText(s: State, e: Event, cap: nat) {
    e.Refused? || (e.Print? && Step(s, e, cap).locked)
  }

  /** Refused text is always marked: the mark is set exactly when text is refused, and goes only as its marker is sent whole. */
  lemma RefusalMarked(s: State, e: Event, cap: nat) returns (before: string)
    ensures var t := Step(s, e, cap);
      && (RefusesText(s, e, cap) ==> t.dataDrop)
      && (!s.dataDrop && t.dataDrop ==> RefusesText(s, e, cap))
      && (s.dataDrop && !t.dataDrop ==> s.wire + before + MUTEX_MSG <= t.wire)
  {
    before := if s.overflow then OVERFLOW_MSG else "";
    if s.dataDrop && !Step(s, e, cap).dataDrop {
      match e
      case Print(text, port, t, direct) => DrainShows(s, t);
      case Background(t) => DrainShows(s, t);
    }
  }

  lemma DrainShows(s: State, t: Taken)
    requires s.dataDrop && !Drain(s, t).dataDrop
    ensures s.wire + (if s.overflow then OVERFLOW_MSG else "") + MUTEX_MSG <= Drain(s, t).wire
  {
    NoTail(s.wire);
  }

  /** At no point of the run has text been overwritten or a write been refused. */
  ghost predicate NothingLost(es: seq<Event>, cap: nat) {
    && !Run(es, cap).overflow && !Run(es, cap).dataDrop
    && (es != [] ==> NothingLost(es[..|es| - 1], cap))
  }

  function AllText(es: seq<Event>): string {
    if es == [] then "" else AllText(es[..|es| - 1]) + (if es[|es| - 1].Print? then es[|es| - 1].text else "")
  }

  /** As long as nothing is overwritten or refused, what went out and what waits is exactly what was printed, in order. */
  lemma {:induction false} Lossless(es: seq<Event>, cap: nat)
    requires NothingLost(es, cap)
    ensures var s := Run(es, cap);
      !s.locked && s.wire + s.waiting == AllText(es)
  {
    if es != [] {
      var e, rest := es[|es| - 1], es[..|es| - 1];
      Lossless(rest, cap);
      var s := Run(rest, cap);
      match e {
        case Print(text, port, t, direct) =>
          LosslessOut(s, text, port, t, direct, cap);
        case Background(t) =>
          LosslessDrain(s, t);
          NoTail(AllText(rest));
        case Refused =>
      }
    }
  }

  lemma LosslessDrain(s: State, t: Taken)
    requires !s.overflow && !s.dataDrop && !s.locked
    ensures var s' := Drain(s, t);
      !s'.overflow && !s'.dataDrop && !s'.locked && s'.wire + s'.waiting == s.wire + s.waiting
  {
    var n := if t.text <= |s.waiting| then t.text else |s.waiting|;
    Regroup(s.wire, s.waiting[..n], s.waiting[n..]);
    assert s.waiting[..n] + s.waiting[n..] == s.waiting;
  }

  lemma LosslessWrite(s: State, text: string, cap: nat)
    requires !s.locked && !Write(s, text, cap).overflow
    ensures Write(s, text, cap) == s.(waiting := s.waiting + text)
  {}

  lemma LosslessDirect(s: State, text: string, k: nat, cap: nat)
    requires !s.locked && s.waiting == "" && k <= |text|
    requires !Write(s.(wire := s.wire + text[..k]), text[k..], cap).overflow
    ensures var s' := Write(s.(wire := s.wire + text[..k]), text[k..], cap);
      !s'.locked && s'.wire + s'.waiting == (s.wire + s.waiting) + text
  {
    LosslessWrite(s.(wire := s.wire + text[..k]), text[k..], cap);
    assert "" + text[k..] == text[k..];
    NoTail(s.wire);
    Regroup(s.wire, text[..k], text[k..]);
    Halves(text, k);
  }

  lemma LosslessOut(s: State, text: string, port: bool, t: Taken, direct: nat, cap: nat)
    requires !s.overflow && !s.dataDrop && !s.locked && !Out(s, text, port, t, direct, cap).overflow
    ensures var s' := Out(s, text, port, t, direct, cap);
      !s'.locked && s'.wire + s'.waiting == (s.wire + s.waiting) + text
  {
    var s1 := if port then Drain(s, t) else s;
    if port { LosslessDrain(s, t); }
    if port && s1.waiting == "" {
      LosslessDirect(s1, text, if direct <= |text| then direct else |text|, cap);
    } else {
      LosslessWrite(s1, text, cap);
      Regroup(s1.wire, s1.waiting, text);
    }
  }

  // ---- What the endpoint has room for ----

  /** The room offered by these polls together. */
  function Room(offers: nat -> nat, from: nat, to: nat): nat
    requires from <= to
  {
    if from == to then 0 else Room(offers, from, to - 1) + offers(to - 1)
  }

  /** Sending goes on from poll to poll until all is sent or a poll offers nothing. */
  predicate Sends(length: nat, offers: nat -> nat, from: nat, sent: nat, to: nat) {
    && sent <= length && from <= to && (sent < length ==> from < to)
    && forall k :: from <= k < to ==> (offers(k) == 0 <==> k == to - 1 && sent < length)
  }

  /** Every poll had room. */
  predicate AlwaysRoom(offers: nat -> nat, from: nat, to: nat) {
    forall k :: from <= k < to ==> offers(k) > 0
  }

  /** The last poll found no room, and it was the only one. */
  predicate EndsFull(offers: nat -> nat, from: nat, to: nat) {
    from < to && offers(to - 1) == 0 && AlwaysRoom(offers, from, to - 1)
  }

  lemma SendsThenSends(offers: nat -> nat, a: nat, n: nat, from: nat, mid: nat, more: nat, to: nat)
    requires Sends(a, offers, from, a, mid) && Sends(n, offers, mid, more, to)
    ensures Sends(a + n, offers, from, a + more, to)
  {}

  lemma SendsOrEnds(length: nat, offers: nat -> nat, from: nat, sent: nat, to: nat)
    requires Sends(length, offers, from, sent, to)
    ensures if sent == length then AlwaysRoom(offers, from, to) else EndsFull(offers, from, to)
  {}

  /** Nothing waits, nothing is due, and all that was is on the wire, the markers first. */
  function Flushed(s: State): State {
    State("", false, false, false,
          s.wire + (if s.overflow then OVERFLOW_MSG else "") + (if s.dataDrop then MUTEX_MSG else "") + s.waiting)
  }

  lemma DrainsAll(s: State, t: Taken)
    requires !s.locked && (s.overflow ==> t.overflow >= |OVERFLOW_MSG|) && (s.dataDrop ==> t.refusal >= |MUTEX_MSG|)
    requires t.text >= |s.waiting|
    ensures Drain(s, t) == Flushed(s)
  {
    var s1 := SendOverflow(s, t);
    var s2 := SendRefusal(s1, t);
    assert s1 == s.(overflow := false, wire := s.wire + if s.overflow then OVERFLOW_MSG else "");
    assert s2 == s1.(dataDrop := false, wire := s1.wire + if s1.dataDrop then MUTEX_MSG else "");
    assert s2.waiting[|s2.waiting|..] == "" && s2.waiting[..|s2.waiting|] == s2.waiting;
  }

  lemma NothingLeft(s: State, text: string, sent: nat, cap: nat)
    requires sent == |text| && !s.locked && |s.waiting| <= cap
    ensures text[..sent] == text && text[sent..] == "" && Write(s, "", cap) == s
  {
    assert s.waiting + "" == s.waiting;
  }

  lemma OutWhenEmpty(s: State, text: string, t: Taken, direct: nat, cap: nat)
    requires var d := Drain(s, t); !d.locked && d.waiting == "" && direct <= |text|
    ensures Out(s, text, true, t, direct, cap)
      == Write(Drain(s, t).(wire := Drain(s, t).wire + text[..direct]), text[direct..], cap)
  {}

  lemma OutWhenNotEmpty(s: State, text: string, port: bool, t: Taken, direct: nat, cap: nat)
    requires port ==> Drain(s, t).locked || Drain(s, t).waiting != ""
    ensures Out(s, text, port, t, direct, cap) == Write(if port then Drain(s, t) else s, text, cap)
  {}

  lemma RoomThroughout(offers: nat -> nat, from: nat, mid: nat, to: nat)
    requires from <= mid <= to && AlwaysRoom(offers, from, mid)
    ensures AlwaysRoom(offers, mid, to) ==> AlwaysRoom(offers, from, to)
    ensures EndsFull(offers, mid, to) ==> EndsFull(offers, from, to) && !AlwaysRoom(offers, from, to)
  {
    if EndsFull(offers, mid, to) { assert offers(to - 1) == 0; }
  }

  // ---- The driver ----

  class Stdio {
    const size: nat                 // slots in the ring; one always stays empty
    const unsent: array<char>
    var nextOut: nat                // may be one past the last slot
    var nextIn: nat
    var overflow: bool
    var dataDrop: bool
    var unsentLocked: bool          // the ring's mutex is still held by this core
    var usbLocked: bool             // the port's mutex is held by code this core has interrupted
    var wire: string                // everything handed to the USB endpoint
    const offers: nat -> nat        // how much room the endpoint has at each poll; that is up to the host
    var polls: nat                  // how often it has been polled

    ghost predicate Valid()
      reads this`nextOut, this`nextIn
    {
      unsent.Length == size > 0 && nextIn < size && nextOut <= size
    }

    ghost function Waiting(): string
      reads this`nextOut, this`nextIn, unsent
      requires Valid()
    {
      Between(unsent[..], nextOut, nextIn)
    }

    ghost function Abs(): State
      reads this, unsent
      requires Valid()
    {
      State(Waiting(), overflow, dataDrop, unsentLocked, wire)
    }

    constructor (size: nat, offers: nat -> nat)
      requires size > 0
      ensures Valid() && this.size == size && this.offers == offers && Abs() == INITIAL && !usbLocked
    {
      this.size, this.offers, polls := size, offers, 0;
      unsent := new char[size];
      nextOut, nextIn := 0, 0;
      overflow, dataDrop, unsentLocked, usbLocked := false, false, false, false;
      wire := "";
    }

    /** Sends as much of `buf` as the endpoint takes, and stops only when it has no room left. */
    method OutData(buf: string) returns (sent: nat)
      modifies this`wire, this`polls
      ensures Sends(|buf|, offers, old(polls), sent, polls)
      ensures wire == old(wire) + buf[..sent]
      ensures var room := Room(offers, old(polls), polls); sent == if room < |buf| then room else |buf|
    {
      sent := 0;
      while sent < |buf|
        invariant sent <= |buf| && wire == old(wire) + buf[..sent]
        invariant old(polls) <= polls && AlwaysRoom(offers, old(polls), polls)
        invariant var room := Room(offers, old(polls), polls); sent == if room < |buf| then room else |buf|
        decreases |buf| - sent
      {
        var n := |buf| - sent;
        var avail := offers(polls);
        polls := polls + 1;
        if n > avail { n := avail; }
        if n > 0 {
          assert buf[..sent] + buf[sent..sent + n] == buf[..sent + n];
          wire := wire + buf[sent..sent + n];
          sent := sent + n;
        } else {
          break;
        }
      }
    }

    /** Sends waiting text, oldest first, in at most two pieces. */
    method SendRing() returns (sent: nat)
      requires Valid()
      modifies this`wire, this`polls
      ensures Sends(|Waiting()|, offers, old(polls), sent, polls)
      ensures wire == old(wire) + Waiting()[..sent]
    {
      ghost var ring := unsent[..];
      if nextIn >= nextOut {
        sent := OutData(unsent[nextOut..nextIn]);
      } else {
        FirstPiece(ring, nextOut, nextIn);
        assert unsent[nextOut..] == ring[nextOut..];
        sent := OutData(unsent[nextOut..]);
        if sent == size - nextOut {
          ghost var mid := polls;
          assert ring[nextOut..][..sent] == ring[nextOut..] && unsent[..nextIn] == ring[..nextIn];
          var more := OutData(unsent[..nextIn]);
          TwoPieces(ring, nextOut, nextIn, old(wire), more);
          SendsThenSends(offers, sent, nextIn, old(polls), mid, more, polls);
          sent := sent + more;
        }
      }
    }

    lemma FirstPiece(ring: string, out: nat, at: nat)
      requires at < out <= |ring|
      ensures |ring[out..]| == |ring| - out <= |Between(ring, out, at)|
      ensures forall n :: 0 <= n <= |ring| - out ==> ring[out..][..n] == Between(ring, out, at)[..n]
    {}

    lemma TwoPieces(ring: string, out: nat, at: nat, wire: string, more: nat)
      requires at < out <= |ring| && more <= at
      ensures |Between(ring, out, at)| == |ring| - out + at
      ensures wire + ring[out..] + ring[..at][..more] == wire + Between(ring, out, at)[..|ring| - out + more]
    {
      assert ring[out..] + ring[..at][..more] == Between(ring, out, at)[..|ring| - out + more];
      Regroup(wire, ring[out..], ring[..at][..more]);
    }

    /** Sends the overflow marker if it is due; `ok` says that none is due any more. */
    method SendOverflowMarker() returns (ok: bool, ghost sent: nat)
      modifies this`overflow, this`wire, this`polls
      ensures ok ==> !overflow && wire == (if old(overflow) then old(wire) + OVERFLOW_MSG else old(wire))
      ensures ok && old(overflow) ==> sent >= |OVERFLOW_MSG|
      ensures !ok ==> overflow && old(overflow) && sent < |OVERFLOW_MSG| && wire == old(wire) + OVERFLOW_MSG[..sent]
      ensures old(polls) <= polls && if ok then AlwaysRoom(offers, old(polls), polls) else EndsFull(offers, old(polls), polls)
    {
      if !overflow { return true, 0; }
      var n := OutData(OVERFLOW_MSG);
      SendsOrEnds(|OVERFLOW_MSG|, offers, old(polls), n, polls);
      sent := n;
      ok := n == |OVERFLOW_MSG|;
      if ok {
        assert OVERFLOW_MSG[..n] == OVERFLOW_MSG;
        overflow := false;
      }
    }

    method SendRefusalMarker() returns (ok: bool, ghost sent: nat)
      modifies this`dataDrop, this`wire, this`polls
      ensures ok ==> !dataDrop && wire == (if old(dataDrop) then old(wire) + MUTEX_MSG else old(wire))
      ensures ok && old(dataDrop) ==> sent >= |MUTEX_MSG|
      ensures !ok ==> dataDrop && old(dataDrop) && sent < |MUTEX_MSG| && wire == old(wire) + MUTEX_MSG[..sent]
      ensures old(polls) <= polls && if ok then AlwaysRoom(offers, old(polls), polls) else EndsFull(offers, old(polls), polls)
    {
      if !dataDrop { return true, 0; }
      var n := OutData(MUTEX_MSG);
      SendsOrEnds(|MUTEX_MSG|, offers, old(polls), n, polls);
      sent := n;
      ok := n == |MUTEX_MSG|;
      if ok {
        assert MUTEX_MSG[..n] == MUTEX_MSG;
        dataDrop := false;
      }
    }

    /**
     * Sends due markers and then waiting text; `empty` says that nothing is left. Returning
     * early leaves the ring's mutex held. Unless it was held before, everything goes out if
     * and only if no poll of the endpoint finds it without room.
     */
    method TryHandleUnsent() returns (empty: bool, ghost taken: Taken)
      requires Valid()
      modifies this`nextOut, this`overflow, this`dataDrop, this`unsentLocked, this`wire, this`polls
      ensures Valid() && Abs() == Drain(old(Abs()), taken)
      ensures empty <==> !Abs().locked && Abs().waiting == ""
      ensures old(polls) <= polls
      ensures empty ==> AlwaysRoom(offers, old(polls), polls) && Abs() == Flushed(old(Abs()))
      ensures !empty && !old(unsentLocked) ==> EndsFull(offers, old(polls), polls)
    {
      taken := Taken(0, 0, 0);
      if unsentLocked { return false, taken; }
      unsentLocked := true;
      ghost var o, r;
      var ok;
      ok, o := SendOverflowMarker();
      taken := Taken(o, 0, 0);
      if !ok { return false, taken; }
      ok, r := SendRefusalMarker();
      taken := Taken(o, r, 0);
      if !ok { return false, taken; }
      ghost var mid := polls;
      var sent := SendRing();
      SendsOrEnds(|Waiting()|, offers, mid, sent, polls);
      taken := Taken(o, r, sent);
      if sent == |Waiting()| { DrainsAll(old(Abs()), taken); }
      RingDrain(unsent[..], nextOut, nextIn, sent);
      nextOut := (nextOut + sent) % size;
      unsentLocked := false;
      empty := nextOut == nextIn;
    }

    /** Copies `src` into the ring's array. */
    method CopyIn(at: nat, src: string)
      requires at + |src| <= unsent.Length
      modifies unsent
      ensures unsent[..] == Overwrite(old(unsent[..]), at, src)
    {
      forall i | 0 <= i < |src| { unsent[at + i] := src[i]; }
    }

    /** The wrapping copy at the end of a write. */
    method Store(src: string)
      requires Valid() && |src| < size
      modifies this`nextIn, unsent
      ensures unsent[..] == Stored(old(unsent[..]), old(nextIn), src)
      ensures nextIn == Advanced(old(nextIn), |src|, size)
    {
      var rest := src;
      if |rest| >= size - nextIn {
        var room := size - nextIn;
        CopyIn(nextIn, rest[..room]);
        rest := rest[room..];
        nextIn := 0;
      }
      if |rest| > 0 {
        CopyIn(nextIn, rest);
        nextIn := nextIn + |rest|;
      }
    }

    /** Moves the output index behind the end of the coming write if there is not enough room before it. */
    method MakeRoom(src: string)
      requires Valid() && |src| < size
      modifies this`nextOut, this`overflow
      ensures var full := |old(Waiting())| + |src| >= size;
        && nextOut == (if full then Advanced(nextIn, |src|, size) + 1 else old(nextOut))
        && overflow == (old(overflow) || full)
    {
      Count(unsent[..], nextOut, nextIn);
      if |src| >= size - PositiveModulo(nextIn - nextOut, size) {
        overflow := true;
        nextOut := (nextIn + |src|) % size + 1;
      }
    }

    /** Makes room for `src`, which is shorter than the ring, and copies it in. */
    method Place(src: string)
      requires Valid() && |src| < size
      modifies this`nextOut, this`nextIn, this`overflow, unsent
      ensures Valid() && Waiting() == Last(old(Waiting()) + src, size - 1)
      ensures overflow == (old(overflow) || |old(Waiting())| + |src| > size - 1)
    {
      ghost var ring, out, at := unsent[..], nextOut, nextIn;
      MakeRoom(src);
      Store(src);
      Placed(ring, out, at, src, unsent[..], nextOut, nextIn);
    }

    /** The ring, and what waits in it, after room has been made and the text been stored. */
    lemma Placed(ring: string, out: nat, at: nat, src: string, ring': string, out': nat, at': nat)
      requires at < |ring| && out <= |ring| && |src| < |ring|
      requires ring' == Stored(ring, at, src) && at' == Advanced(at, |src|, |ring|)
      requires out' == if |Between(ring, out, at)| + |src| >= |ring| then at' + 1 else out
      ensures Between(ring', out', at') == Last(Between(ring, out, at) + src, |ring| - 1)
    {
      WriteKeepsLast(ring, out, at, src);
    }

    method WriteLocked(buf: string)
      requires Valid()
      modifies this`nextOut, this`nextIn, this`overflow, unsent
      ensures Valid() && Waiting() == Last(old(Waiting()) + buf, size - 1)
      ensures overflow == (old(overflow) || |old(Waiting())| + |buf| > size - 1)
    {
      var src := buf;
      if |src| >= size {
        LastOfLast(Waiting(), buf, size - 1);
        src := src[|src| - (size - 1)..];
        overflow := true;
        assert src == Last(buf, size - 1);
      }
      Place(src);
    }

    /** Puts text into the ring, giving up the oldest text when there is not enough room. */
    method WriteUnsent(buf: string)
      requires Valid()
      modifies this`nextOut, this`nextIn, this`overflow, this`dataDrop, unsent
      ensures Valid() && Abs() == Write(old(Abs()), buf, size - 1)
    {
      if unsentLocked {
        dataDrop := true;
        return;
      }
      WriteLocked(buf);
    }

    /** With nothing waiting: what the endpoint does not take of the text goes into the ring. */
    method SendOrKeep(buf: string) returns (ghost direct: nat)
      requires Valid() && !unsentLocked && Waiting() == ""
      modifies this`nextOut, this`nextIn, this`overflow, this`dataDrop, this`wire, this`polls, unsent
      ensures Valid() && direct <= |buf| && old(polls) <= polls
      ensures Abs() == Write(old(Abs()).(wire := old(wire) + buf[..direct]), buf[direct..], size - 1)
      ensures if AlwaysRoom(offers, old(polls), polls) then Abs() == old(Abs()).(wire := old(wire) + buf)
        else EndsFull(offers, old(polls), polls)
    {
      var sent := OutData(buf);
      SendsOrEnds(|buf|, offers, old(polls), sent, polls);
      direct := sent;
      if sent < |buf| {
        WriteUnsent(buf[sent..]);
      } else {
        NothingLeft(Abs(), buf, sent, size - 1);
      }
    }

    /**
     * A text written to standard output. If the host is connected, the mutexes are free and every poll finds
     * room, it is on the wire on return, behind all that waited; otherwise one poll found none.
     */
    method OutChars(buf: string, connected: bool) returns (ghost taken: Taken, ghost direct: nat)
      requires Valid()
      modifies this, unsent
      ensures Valid() && usbLocked == old(usbLocked) && old(polls) <= polls
      ensures Abs() == Out(old(Abs()), buf, connected && !usbLocked, taken, direct, size - 1)
      ensures connected && !usbLocked && !old(unsentLocked) ==>
        if AlwaysRoom(offers, old(polls), polls) then Abs() == Flushed(old(Abs())).(wire := Flushed(old(Abs())).wire + buf)
        else EndsFull(offers, old(polls), polls)
    {
      taken, direct := Taken(0, 0, 0), 0;
      if usbLocked {
        WriteUnsent(buf);
        return;
      }
      usbLocked := true;
      var empty := false;
      if connected {
        empty, taken := TryHandleUnsent();
      }
      ghost var mid := polls;
      if empty {
        direct := SendOrKeep(buf);
        OutWhenEmpty(old(Abs()), buf, taken, direct, size - 1);
        RoomThroughout(offers, old(polls), mid, polls);
      } else {
        WriteUnsent(buf);
        OutWhenNotEmpty(old(Abs()), buf, connected, taken, direct, size - 1);
      }
      usbLocked := false;
    }

    /** The background interrupt that drains the ring. */
    method LowPriorityWorker(connected: bool) returns (ghost taken: Taken)
      requires Valid()
      modifies this
      ensures Valid() && usbLocked == old(usbLocked) && old(polls) <= polls
      ensures Abs() == if !usbLocked && connected then Drain(old(Abs()), taken) else old(Abs())
      ensures connected && !usbLocked && !old(unsentLocked) ==>
        if AlwaysRoom(offers, old(polls), polls) then Abs() == Flushed(old(Abs())) else EndsFull(offers, old(polls), polls)
    {
      taken := Taken(0, 0, 0);
      if !usbLocked {
        usbLocked := true;
        if connected {
          var empty;
          empty, taken := TryHandleUnsent();
        }
        usbLocked := false;
      }
    }

    /** A write from an interrupt that arrives while the code it interrupts holds the ring's mutex. */
    method RefuseWrite()
      requires Valid()
      modifies this`dataDrop
      ensures Valid() && Abs() == Step(old(Abs()), Refused, size - 1)
    {
      dataDrop := true;
    }
  }
}
