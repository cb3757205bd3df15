/**
 The log of the last fifty lines and a session that polls it while others add to it
 (src/applutil.cpp:551-604, src/main.cpp:88-119).  `add`, `count` and `get` are atomic steps; the
 requests of one session follow each other.
 */
module ProxyLogs {
  import opened Bytes

  const KEPT: nat := 50

  datatype Line = Line(index: nat, text: ByteString)

  /** `logger_get` between two look-ups: the count it started from and the next index. */
  datatype Poll = Poll(limit: nat, at: nat)

  /** What an observer records; the last three fields since the session's last reset. */
  datatype Trace = Trace(
    lines: seq<ByteString>,      // every line ever stored
    looked: seq<nat>,            // how many lines there were when index k was looked up
    received: seq<nat>,          // the indices that were found
    output: seq<ByteString>)     // the lines sent to the browser

  datatype State = State(
    log: seq<Line>,              // m_log
    writeIndex: nat,             // m_write_index
    readIndex: nat,              // m_logger_read_index
    poll: Option<Poll>,
    trace: Trace)

  datatype Event = Add(stamp: ByteString, value: ByteString) | PollStart | PollLook | PollEnd | Reset

  const EMPTY := State([], 0, 0, None, Trace([], [], [], []))

  function Stamped(stamp: ByteString, value: ByteString): (r: ByteString)
    ensures r != []
  {
    stamp + [58, 32] + value
  }

  /** The text under an index, or nothing. */
  function Lookup(log: seq<Line>, index: nat): ByteString {
    if log == [] then [] else if log[0].index == index then log[0].text else Lookup(log[1..], index)
  }

  function Last(log: seq<Line>): seq<Line> {
    if |log| > KEPT then log[|log| - KEPT..] else log
  }

  function Added(s: State, stamp: ByteString, value: ByteString): State {
    if value == [] then s
    else
      var text := Stamped(stamp, value);
      s.(log := Last(s.log + [Line(s.writeIndex, text)]), writeIndex := s.writeIndex + 1,
         trace := s.trace.(lines := s.trace.lines + [text]))
  }

  function Looked(s: State): State
    requires s.poll.Some?
  {
    var at := s.poll.value.at;
    var text := Lookup(s.log, at);
    var trace := s.trace.(looked := s.trace.looked + [|s.trace.lines|]);
    s.(poll := Some(s.poll.value.(at := at + 1)),
       trace := if text == [] then trace else trace.(received := trace.received + [at], output := trace.output + [text]))
  }

  predicate Enabled(s: State, e: Event) {
    match e
    case Add(_, _) => true
    case PollStart => s.poll.None?
    case PollLook => s.poll.Some? && s.poll.value.at < s.poll.value.limit
    case PollEnd => s.poll.Some? && s.poll.value.at >= s.poll.value.limit
    case Reset => s.poll.None?
  }

  function Step(s: State, e: Event): State
    requires Enabled(s, e)
  {
    match e
    case Add(stamp, value) => Added(s, stamp, value)
    case PollStart => s.(poll := Some(Poll(s.writeIndex, s.readIndex)))
    case PollLook => Looked(s)
    case PollEnd => s.(poll := None, readIndex := s.poll.value.limit)
    case Reset => s.(readIndex := 0, trace := s.trace.(looked := [], received := [], output := []))
  }

  /** The state after the events, if each was possible. */
  function Run(s: State, es: seq<Event>): Option<State> {
    if es == [] then Some(s)
    else
      var before := Run(s, es[..|es| - 1]);
      if before.Some? && Enabled(before.value, es[|es| - 1]) then Some(Step(before.value, es[|es| - 1])) else None
  }

  // ---------------------------------------------------------------- the run invariant

  /** The log is the end of everything ever stored. */
  ghost predicate Window(log: seq<Line>, writeIndex: nat, lines: seq<ByteString>) {
    && writeIndex == |lines|
    && |log| == (if |lines| < KEPT then |lines| else KEPT)
    && Numbered(log, |lines| - |log|, lines)
    && (forall k :: 0 <= k < |lines| ==> lines[k] != [])
  }

  /** The next index this session looks up. */
  function Next(s: State): nat {
    if s.poll.Some? then s.poll.value.at else s.readIndex
  }

  /** Each index below `Next` was looked up once, and found unless fifty newer lines were there. */
  ghost predicate Sent(t: Trace) {
    && |t.looked| <= |t.lines|
    && (forall i, j :: 0 <= i < j < |t.received| ==> t.received[i] < t.received[j])
    && (forall i :: 0 <= i < |t.received| ==> t.received[i] < |t.looked|)
    && (forall k :: 0 <= k < |t.looked| ==> k < t.looked[k] <= |t.lines| && (k in t.received <==> t.looked[k] - 1 - k < KEPT))
    && |t.output| == |t.received|
    && (forall i :: 0 <= i < |t.output| ==> t.output[i] == t.lines[t.received[i]])
  }

  ghost predicate Inv(s: State) {
    && Window(s.log, s.writeIndex, s.trace.lines)
    && |s.trace.looked| == Next(s) <= |s.trace.lines|
    && (s.poll.Some? ==> s.poll.value.at <= s.poll.value.limit <= |s.trace.lines|)
    && Sent(s.trace)
  }

  /** `log` holds the lines from number `first` on. */
  ghost predicate Numbered(log: seq<Line>, first: nat, lines: seq<ByteString>) {
    && first + |log| == |lines|
    && forall i :: 0 <= i < |log| ==> log[i] == Line(first + i, lines[first + i])
  }

  lemma NumberedMore(log: seq<Line>, first: nat, lines: seq<ByteString>, text: ByteString)
    requires Numbered(log, first, lines)
    ensures Numbered(log + [Line(|lines|, text)], first, lines + [text])
  {
  }

  lemma NumberedLess(log: seq<Line>, first: nat, lines: seq<ByteString>, gone: nat)
    requires Numbered(log, first, lines) && gone <= |log|
    ensures Numbered(log[gone..], first + gone, lines)
  {
  }

  lemma AddWindow(log: seq<Line>, lines: seq<ByteString>, text: ByteString)
    requires Window(log, |lines|, lines) && text != []
    ensures Window(Last(log + [Line(|lines|, text)]), |lines| + 1, lines + [text])
  {
    hide Numbered;
    var more, first := log + [Line(|lines|, text)], |lines| - |log|;
    NumberedMore(log, first, lines, text);
    if |more| > KEPT {
      NumberedLess(more, first, lines + [text], |more| - KEPT);
    }
  }

  lemma AddKeeps(s: State, stamp: ByteString, value: ByteString)
    requires Inv(s)
    ensures Inv(Added(s, stamp, value))
  {
    hide Window;
    if value != [] {
      assert s.writeIndex == |s.trace.lines| by { Total(s); }
      AddWindow(s.log, s.trace.lines, Stamped(stamp, value));
    }
  }

  lemma Total(s: State)
    requires Inv(s)
    ensures s.writeIndex == |s.trace.lines|
  {
  }

  /** Contiguous indices make the search an index computation. */
  lemma {:induction false} LookupFinds(log: seq<Line>, first: nat, index: nat)
    requires forall i :: 0 <= i < |log| ==> log[i].index == first + i
    ensures Lookup(log, index) == if first <= index < first + |log| then log[index - first].text else []
    decreases |log|
  {
    if log != [] {
      LookupFinds(log[1..], first + 1, index);
    }
  }

  lemma LookKeeps(s: State)
    requires Inv(s) && Enabled(s, PollLook)
    ensures Inv(Looked(s))
  {
    var t, at, total := Looked(s), s.poll.value.at, |s.trace.lines|;
    LookupFinds(s.log, total - |s.log|, at);
    assert Lookup(s.log, at) == if total - 1 - at < KEPT then s.trace.lines[at] else [];
    SentMore(s.trace, t.trace, at);
  }

  lemma SentMore(t: Trace, u: Trace, at: nat)
    requires Sent(t) && at == |t.looked| < |t.lines| && u.lines == t.lines && u.looked == t.looked + [|t.lines|]
    requires if |t.lines| - 1 - at < KEPT
             then u.received == t.received + [at] && u.output == t.output + [t.lines[at]]
             else u.received == t.received && u.output == t.output
    ensures Sent(u)
  {
  }

  lemma StepKeeps(s: State, e: Event)
    requires Inv(s) && Enabled(s, e)
    ensures Inv(Step(s, e))
  {
    match e
    case Add(stamp, value) => AddKeeps(s, stamp, value);
    case PollLook => LookKeeps(s);
    case _ =>
  }

  lemma {:induction false} RunKeeps(s: State, es: seq<Event>)
    requires Inv(s) && Run(s, es).Some?
    ensures Inv(Run(s, es).value)
  {
    hide Inv, Step, Enabled;
    if es != [] {
      RunKeeps(s, es[..|es| - 1]);
      StepKeeps(Run(s, es[..|es| - 1]).value, es[|es| - 1]);
    }
  }

  /** A line is the time, a colon, and the text. */
  lemma StampedHolds(stamp: ByteString, value: ByteString)
    ensures var line := Stamped(stamp, value);
            && |line| == |stamp| + 2 + |value|
            && line[..|stamp|] == stamp && line[|stamp|..|stamp| + 2] == Ascii(": ") && line[|stamp| + 2..] == value
  {
  }

  /** The lines that the events add; an empty text adds nothing. */
  function AddedLines(es: seq<Event>): seq<ByteString> {
    if es == [] then []
    else
      var n := |es| - 1;
      AddedLines(es[..n]) + if es[n].Add? && es[n].value != [] then [Stamped(es[n].stamp, es[n].value)] else []
  }

  /** The record of lines is what the events of the run add, in order. */
  lemma {:induction false} LinesAreAdds(s: State, es: seq<Event>)
    requires Run(s, es).Some?
    ensures Run(s, es).value.trace.lines == s.trace.lines + AddedLines(es)
    decreases es
  {
    hide Lookup, Last, Stamped;
    if es != [] {
      LinesAreAdds(s, es[..|es| - 1]);
    }
  }

  /** A poll looks up the lines from where the session stands to the last one there is, one by one; then
      the session stands there. A reset puts it back to the first line. */
  lemma PollExact(s: State, e: Event)
    requires Inv(s) && Enabled(s, e) && !e.Add?
    ensures var t := Step(s, e);
            && t.log == s.log && t.writeIndex == s.writeIndex
            && match e
               case PollStart => t.poll == Some(Poll(|s.trace.lines|, s.readIndex)) && t.readIndex == s.readIndex
               case PollLook => t.poll == Some(Poll(s.poll.value.limit, s.poll.value.at + 1)) && t.readIndex == s.readIndex
               case PollEnd => t.poll == None && t.readIndex == s.poll.value.limit == s.poll.value.at
               case Reset => t.poll == None && t.readIndex == 0
  {
  }

  // ---------------------------------------------------------------- main results

  /** Over every interleaving of adds and polls, the log is the last fifty lines, contiguously numbered. */
  lemma {:induction false} LogIsTheEnd(es: seq<Event>)
    requires Run(EMPTY, es).Some?
    ensures var t := Run(EMPTY, es).value;
            Window(t.log, t.writeIndex, t.trace.lines) && |t.log| == if |t.trace.lines| < 50 then |t.trace.lines| else 50
  {
    RunKeeps(EMPTY, es);
  }

  /** Since its last reset the session has received each line at most once and in order, and of those
      it looked for it misses exactly the ones fifty newer lines had pushed out by then. */
  lemma PollsExact(es: seq<Event>)
    requires Run(EMPTY, es).Some?
    ensures var t := Run(EMPTY, es).value;
            && |t.trace.looked| == Next(t) && Sent(t.trace)
            && forall k :: 0 <= k < |t.trace.looked| ==> (k !in t.trace.received <==> t.trace.looked[k] - 1 - k >= 50)
  {
    RunKeeps(EMPTY, es);
  }

  // ---------------------------------------------------------------- the log and a polling session

  class ProxyLog {
    var log: seq<Line>
    var writeIndex: nat
    var readIndex: nat           // of the session
    ghost var poll: Option<Poll>
    ghost var trace: Trace

    ghost function Abs(): State
      reads this
    {
      State(log, writeIndex, readIndex, poll, trace)
    }

    constructor ()
      ensures Abs() == EMPTY && Inv(Abs())
    {
      log, writeIndex, readIndex, poll, trace := [], 0, 0, None, EMPTY.trace;
    }

    method Add(stamp: ByteString, value: ByteString)
      requires Inv(Abs())
      modifies this
      ensures Abs() == Step(old(Abs()), Event.Add(stamp, value)) && Inv(Abs())
    {
      hide Inv;
      AddKeeps(Abs(), stamp, value);
      if value == [] {
        return;
      }
      ghost var all := log + [Line(writeIndex, Stamped(stamp, value))];
      log, writeIndex := log + [Line(writeIndex, Stamped(stamp, value))], writeIndex + 1;
      trace := trace.(lines := trace.lines + [Stamped(stamp, value)]);
      while |log| > KEPT
        invariant Last(log) == Last(all)
        invariant writeIndex == old(writeIndex) + 1 && readIndex == old(readIndex) && poll == old(poll)
        invariant trace == old(trace).(lines := old(trace).lines + [Stamped(stamp, value)])
      {
        log := log[1..];
      }
    }

    /** `std::find_if` on the index. */
    method Get(index: nat) returns (text: ByteString)
      ensures text == Lookup(log, index)
    {
      var i := 0;
      while i < |log|
        invariant i <= |log| && Lookup(log, index) == Lookup(log[i..], index)
      {
        if log[i].index == index {
          return log[i].text;
        }
        i := i + 1;
      }
      return [];
    }

    /** The page that shows the log is loaded anew. */
    method Index()
      requires Inv(Abs()) && poll == None
      modifies this
      ensures Abs() == Step(old(Abs()), Reset) && Inv(Abs()) && readIndex == 0
    {
      StepKeeps(Abs(), Reset);
      readIndex := 0;
      trace := trace.(looked := [], received := [], output := []);
    }

    /** What other threads add between two look-ups. */
    method Others(added: seq<(ByteString, ByteString)>, ghost from: State, ghost so_far: seq<Event>) returns (ghost es: seq<Event>)
      requires Inv(Abs()) && Run(from, so_far) == Some(Abs())
      modifies this
      ensures Inv(Abs()) && Run(from, es) == Some(Abs())
      ensures poll == old(poll) && readIndex == old(readIndex)
      ensures trace == old(trace).(lines := trace.lines)
    {
      hide Inv;
      es := so_far;
      for i := 0 to |added|
        invariant Inv(Abs()) && Run(from, es) == Some(Abs())
        invariant poll == old(poll) && readIndex == old(readIndex) && trace == old(trace).(lines := trace.lines)
      {
        Extend(from, es, Event.Add(added[i].0, added[i].1));
        es := es + [Event.Add(added[i].0, added[i].1)];
        Add(added[i].0, added[i].1);
      }
    }

    method Look(index: nat, ghost limit: nat) returns (text: ByteString)
      requires Inv(Abs()) && poll == Some(Poll(limit, index)) && index < limit
      modifies this`poll, this`trace
      ensures Inv(Abs()) && Abs() == Step(old(Abs()), PollLook)
      ensures poll == Some(Poll(limit, index + 1))
      ensures trace.output == if text == [] then old(trace.output) else old(trace.output) + [text]
    {
      hide Inv, Lookup;
      StepKeeps(Abs(), PollLook);
      text := Get(index);
      trace := trace.(looked := trace.looked + [|trace.lines|]);
      if text != [] {
        trace := trace.(received := trace.received + [index], output := trace.output + [text]);
      }
      poll := Some(Poll(limit, index + 1));
    }

    /** Answers a poll while others add lines: `added(index)` just before that index is looked up. */
    method LoggerGet(added: nat -> seq<(ByteString, ByteString)>) returns (out: seq<ByteString>, ghost es: seq<Event>)
      requires Inv(Abs()) && poll == None
      modifies this
      ensures Inv(Abs()) && poll == None && Run(old(Abs()), es) == Some(Abs())
      ensures readIndex == old(writeIndex)
      ensures trace.output == old(trace.output) + out
    {
      hide Inv, Run, Looked;
      ghost var from := Abs();
      NoEvents(from);
      var limit, index := writeIndex, readIndex;
      StepKeeps(Abs(), PollStart);
      Extend(from, [], PollStart);
      out, es := [], [] + [PollStart];
      poll := Some(Poll(limit, index));
      while index < limit
        invariant index <= limit && poll == Some(Poll(limit, index))
        invariant Inv(Abs()) && Run(from, es) == Some(Abs())
        invariant trace.output == old(trace.output) + out
      {
        es := Others(added(index), from, es);
        Extend(from, es, PollLook);
        var text := Look(index, limit);
        es := es + [PollLook];
        if text != [] {
          out := out + [text];
        }
        index := index + 1;
      }
      StepKeeps(Abs(), PollEnd);
      Extend(from, es, PollEnd);
      es := es + [PollEnd];
      readIndex, poll := limit, None;
    }
  }

  lemma Extend(s: State, es: seq<Event>, e: Event)
    requires Run(s, es).Some? && Enabled(Run(s, es).value, e)
    ensures Run(s, es + [e]) == Some(Step(Run(s, es).value, e))
  {
  }

  lemma NoEvents(s: State)
    ensures Run(s, []) == Some(s)
  {
  }

}
