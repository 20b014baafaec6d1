/** The output drain of the mirror driver (`_process_streams` and the older
    `stream_output` of scripts/mirror-images.py). The selector loop is a fold
    over the sequence of `readline()` results it performs; `Drain` is that
    fold and `StreamProcessor` runs it in place. */
module StreamDrain {
  import opened Text
  import opened LogLines

  datatype Stream = Stdout | Stderr

  /** One `readline()` on a stream the selector reported ready; `""` marks end of stream. */
  datatype Read = Read(stream: Stream, data: string)

  /** Everything the drain changes: the captured result (`result_data`), the
      number of progress-bar calls, the two log sinks (stdout lines go to the
      debug sink, stderr lines to the error sink) and the open streams. */
  datatype DrainState = DrainState(
    mirrored: Option<nat>, images: Option<nat>, ticks: nat,
    debugLog: seq<string>, errorLog: seq<string>, open: set<Stream>)

  function InitialState(): DrainState {
    DrainState(None, None, 0, [], [], {Stdout, Stderr})
  }

  /** A result line overwrites both captured numbers. */
  function Capture(st: DrainState, line: string): DrainState {
    match FindResult(line)
    case Some(rc) => st.(mirrored := Some(rc.mirrored), images := Some(rc.images))
    case None => st
  }

  /** A copy line advances the bar, when there is one. */
  function Tick(st: DrainState, hasBar: bool, line: string): DrainState {
    if IsImageCopied(line) && hasBar then st.(ticks := st.ticks + 1) else st
  }

  /** What a line adds to its sink: nothing for noise, otherwise the
      right-stripped line without its duplicated prefix. */
  function Logged(raw: string): seq<string> {
    var line := RStrip(raw);
    if IsNoiseIgnoreCase(line) then [] else [StripLogPrefix(line)]
  }

  /** Stdout lines go to the debug sink, stderr lines to the error sink. */
  function LogLine(st: DrainState, stream: Stream, raw: string): DrainState {
    if stream == Stdout then st.(debugLog := st.debugLog + Logged(raw))
    else st.(errorLog := st.errorLog + Logged(raw))
  }

  /** Effect of one line read from `stream`; capture and ticks look at the
      line before its prefix is stripped, and happen for noise lines too. */
  function LineStep(st: DrainState, hasBar: bool, stream: Stream, raw: string): DrainState {
    var line := RStrip(raw);
    LogLine(Tick(Capture(st, line), hasBar, line), stream, raw)
  }

  /** Effect of one read: a closed stream is no longer polled, an empty read closes. */
  function Step(st: DrainState, hasBar: bool, r: Read): DrainState {
    if r.stream !in st.open then st
    else if r.data == "" then st.(open := st.open - {r.stream})
    else LineStep(st, hasBar, r.stream, r.data)
  }

  /** The selector loop: events are consumed while some stream is open. */
  function Drain(st: DrainState, hasBar: bool, events: seq<Read>): DrainState
    decreases |events|
  {
    if events == [] || st.open == {} then st
    else Drain(Step(st, hasBar, events[0]), hasBar, events[1..])
  }

  // ---------------------------------------------------------------------------
  // What the loop delivers

  /** The non-empty events the loop actually processes, in arrival order. */
  function Delivered(open: set<Stream>, events: seq<Read>): seq<Read>
    decreases |events|
  {
    if events == [] || open == {} then []
    else if events[0].stream !in open then Delivered(open, events[1..])
    else if events[0].data == "" then Delivered(open - {events[0].stream}, events[1..])
    else [events[0]] + Delivered(open, events[1..])
  }

  /** The data read from one stream, in order. */
  function StreamData(events: seq<Read>, s: Stream): seq<string>
    decreases |events|
  {
    if events == [] then []
    else (if events[0].stream == s then [events[0].data] else []) + StreamData(events[1..], s)
  }

  /** The data of all events, in order. */
  function AllData(events: seq<Read>): seq<string>
    decreases |events|
  {
    if events == [] then [] else [events[0].data] + AllData(events[1..])
  }

  /** The lines of one stream before its first empty read (`iter(readline, '')`). */
  function UntilEof(ds: seq<string>): seq<string>
    decreases |ds|
  {
    if ds == [] || ds[0] == "" then [] else [ds[0]] + UntilEof(ds[1..])
  }

  /** Streams that return an empty read somewhere in `events`. */
  function EofStreams(events: seq<Read>): set<Stream> {
    set r | r in events && r.data == "" :: r.stream
  }

  /** What reaches a log sink from a sequence of raw lines: each right-stripped,
      noise dropped, prefix stripped. */
  function LogOf(raws: seq<string>): seq<string>
    decreases |raws|
  {
    if raws == [] then [] else Logged(raws[0]) + LogOf(raws[1..])
  }

  /** Number of lines that match the per-image copy pattern. */
  function Copies(raws: seq<string>): nat
    decreases |raws|
  {
    if raws == [] then 0
    else (if IsImageCopied(RStrip(raws[0])) then 1 else 0) + Copies(raws[1..])
  }

  /** The result of the last result line, if any. */
  function LastResult(raws: seq<string>): Option<ResultCount>
    decreases |raws|
  {
    if raws == [] then None
    else
      match LastResult(raws[1..])
      case Some(rc) => Some(rc)
      case None => FindResult(RStrip(raws[0]))
  }

  // ---------------------------------------------------------------------------
  // Properties of the drain

  /** Per stream, the loop delivers exactly the lines before that stream's
      first empty read, in order, however the two streams interleave. */
  lemma {:induction false} DeliveredPerStream(open: set<Stream>, events: seq<Read>, s: Stream)
    ensures StreamData(Delivered(open, events), s) == if s in open then UntilEof(StreamData(events, s)) else []
    decreases |events|
  {
    if events == [] || open == {} {
    } else {
      var r, rest := events[0], events[1..];
      assert StreamData(events, s) == (if r.stream == s then [r.data] else []) + StreamData(rest, s);
      if r.stream !in open {
        assert Delivered(open, events) == Delivered(open, rest);
        DeliveredPerStream(open, rest, s);
        if r.stream != s {
          assert StreamData(events, s) == StreamData(rest, s);
        }
      } else if r.data == "" {
        assert Delivered(open, events) == Delivered(open - {r.stream}, rest);
        DeliveredPerStream(open - {r.stream}, rest, s);
        if r.stream == s {
          assert StreamData(events, s)[0] == "";
        }
      } else {
        DeliveredPerStream(open, rest, s);
        assert Delivered(open, events) == [r] + Delivered(open, rest);
        assert StreamData([r] + Delivered(open, rest), s)
            == (if r.stream == s then [r.data] else []) + StreamData(Delivered(open, rest), s) by {
          assert ([r] + Delivered(open, rest))[1..] == Delivered(open, rest);
        }
        if r.stream == s {
          assert UntilEof(StreamData(events, s)) == [r.data] + UntilEof(StreamData(rest, s)) by {
            assert StreamData(events, s)[1..] == StreamData(rest, s);
          }
        }
      }
    }
  }

  /** The sink a stream's lines go to: stdout to the debug log, stderr to the error log. */
  function Sink(st: DrainState, s: Stream): seq<string> {
    if s == Stdout then st.debugLog else st.errorLog
  }

  /** One line adds its logged form to its own stream's sink and nothing to the other. */
  lemma LineStepSink(st: DrainState, hasBar: bool, stream: Stream, raw: string, s: Stream)
    ensures Sink(LineStep(st, hasBar, stream, raw), s) == Sink(st, s) + (if stream == s then Logged(raw) else [])
  {
    assert [raw][1..] == [];
  }

  /** One line advances the bar once if it is a copy line and there is a bar. */
  lemma LineStepTicks(st: DrainState, hasBar: bool, stream: Stream, raw: string)
    ensures LineStep(st, hasBar, stream, raw).ticks == st.ticks + (if hasBar then Copies([raw]) else 0)
  {
    assert [raw][1..] == [];
  }

  /** A line never closes a stream. */
  lemma LineStepOpen(st: DrainState, hasBar: bool, stream: Stream, raw: string)
    ensures LineStep(st, hasBar, stream, raw).open == st.open
  {
  }

  /** A result line overwrites the captured pair; any other line leaves it. */
  lemma LineStepResult(st: DrainState, hasBar: bool, stream: Stream, raw: string)
    ensures var st' := LineStep(st, hasBar, stream, raw);
      match LastResult([raw])
      case Some(rc) => st'.mirrored == Some(rc.mirrored) && st'.images == Some(rc.images)
      case None => st'.mirrored == st.mirrored && st'.images == st.images
  {
    assert [raw][1..] == [];
  }

  /** Each sink receives the logged form of exactly the lines delivered from
      its own stream, in order. */
  lemma {:induction false} DrainSink(st: DrainState, hasBar: bool, events: seq<Read>, s: Stream)
    ensures Sink(Drain(st, hasBar, events), s) == Sink(st, s) + LogOf(StreamData(Delivered(st.open, events), s))
    decreases |events|
  {
    if events != [] && st.open != {} {
      DrainSink(Step(st, hasBar, events[0]), hasBar, events[1..], s);
      StepSink(st, hasBar, events, s);
    }
  }

  /** The first event moves its logged line, if any, from the delivered
      lines to the sink. */
  lemma StepSink(st: DrainState, hasBar: bool, events: seq<Read>, s: Stream)
    requires events != [] && st.open != {}
    ensures var st' := Step(st, hasBar, events[0]);
      Sink(st', s) + LogOf(StreamData(Delivered(st'.open, events[1..]), s))
      == Sink(st, s) + LogOf(StreamData(Delivered(st.open, events), s))
  {
    var r, rest := events[0], events[1..];
    if r.stream !in st.open {
      assert Delivered(st.open, events) == Delivered(st.open, rest);
    } else if r.data == "" {
      assert Delivered(st.open, events) == Delivered(st.open - {r.stream}, rest);
    } else {
      LineSink(st, hasBar, events, s);
    }
  }

  lemma LineSink(st: DrainState, hasBar: bool, events: seq<Read>, s: Stream)
    requires events != [] && events[0].stream in st.open && events[0].data != ""
    ensures var st' := LineStep(st, hasBar, events[0].stream, events[0].data);
      Sink(st', s) + LogOf(StreamData(Delivered(st.open, events[1..]), s))
      == Sink(st, s) + LogOf(StreamData(Delivered(st.open, events), s))
  {
    var r := events[0];
    var x := if r.stream == s then Logged(r.data) else [];
    LineStepSink(st, hasBar, r.stream, r.data, s);
    DeliverLine(st.open, events, s);
    AppendShift(Sink(LineStep(st, hasBar, r.stream, r.data), s), Sink(st, s), x,
                LogOf(StreamData(Delivered(st.open, events), s)), LogOf(StreamData(Delivered(st.open, events[1..]), s)));
  }

  lemma AppendShift<T>(a: seq<T>, b: seq<T>, x: seq<T>, c: seq<T>, l: seq<T>)
    requires a == b + x && c == x + l
    ensures a + l == b + c
  {
  }

  /** A line read from an open stream is delivered first, to its own stream's share. */
  lemma DeliverLine(open: set<Stream>, events: seq<Read>, s: Stream)
    requires events != [] && events[0].stream in open && events[0].data != ""
    ensures LogOf(StreamData(Delivered(open, events), s))
         == (if events[0].stream == s then Logged(events[0].data) else []) + LogOf(StreamData(Delivered(open, events[1..]), s))
  {
    var r, d := events[0], Delivered(open, events[1..]);
    assert Delivered(open, events) == [r] + d;
    assert ([r] + d)[1..] == d;
    var ds := StreamData(d, s);
    if r.stream == s {
      assert StreamData([r] + d, s) == [r.data] + ds;
      assert ([r.data] + ds)[1..] == ds;
    } else {
      assert StreamData([r] + d, s) == ds;
    }
  }

  /** The bar is called once per delivered copy line, on either stream, and
      never without a bar. */
  lemma {:induction false} DrainTicks(st: DrainState, hasBar: bool, events: seq<Read>)
    ensures Drain(st, hasBar, events).ticks == st.ticks +
      (if hasBar then Copies(AllData(Delivered(st.open, events))) else 0)
    decreases |events|
  {
    if events == [] || st.open == {} {
    } else {
      var r, rest := events[0], events[1..];
      var st' := Step(st, hasBar, r);
      DrainTicks(st', hasBar, rest);
      if r.stream !in st.open {
        assert st' == st;
      } else if r.data == "" {
        assert st'.ticks == st.ticks;
      } else {
        LineStepTicks(st, hasBar, r.stream, r.data);
        LineStepOpen(st, hasBar, r.stream, r.data);
        var d := Delivered(st.open, rest);
        assert Delivered(st.open, events) == [r] + d;
        assert ([r] + d)[1..] == d;
        assert AllData([r] + d) == [r.data] + AllData(d);
        CopiesAppend([r.data], AllData(d));
      }
    }
  }

  /** The captured result is that of the last delivered result line (from
      either stream); without one the accumulator is unchanged. */
  lemma {:induction false} DrainResult(st: DrainState, hasBar: bool, events: seq<Read>)
    ensures var fin := Drain(st, hasBar, events);
      match LastResult(AllData(Delivered(st.open, events)))
      case Some(rc) => fin.mirrored == Some(rc.mirrored) && fin.images == Some(rc.images)
      case None => fin.mirrored == st.mirrored && fin.images == st.images
    decreases |events|
  {
    if events == [] || st.open == {} {
    } else {
      var r, rest := events[0], events[1..];
      var st' := Step(st, hasBar, r);
      DrainResult(st', hasBar, rest);
      if r.stream !in st.open {
        assert st' == st;
      } else if r.data == "" {
        assert st'.mirrored == st.mirrored && st'.images == st.images;
      } else {
        LineStepResult(st, hasBar, r.stream, r.data);
        LineStepOpen(st, hasBar, r.stream, r.data);
        var d := Delivered(st.open, rest);
        assert Delivered(st.open, events) == [r] + d;
        assert ([r] + d)[1..] == d;
        assert AllData([r] + d) == [r.data] + AllData(d);
        LastResultAppend([r.data], AllData(d));
      }
    }
  }

  /** A stream leaves the open set exactly when one of its events is empty,
      so the loop ends once both streams have reported end of stream. */
  lemma {:induction false} DrainOpen(st: DrainState, hasBar: bool, events: seq<Read>)
    ensures Drain(st, hasBar, events).open == st.open - EofStreams(events)
    decreases |events|
  {
    if events == [] {
    } else if st.open == {} {
    } else {
      var r, rest := events[0], events[1..];
      var st' := Step(st, hasBar, r);
      DrainOpen(st', hasBar, rest);
      EofStreamsCons(events);
      if r.stream in st.open && r.data != "" {
        LineStepOpen(st, hasBar, r.stream, r.data);
      }
    }
  }

  lemma EofStreamsCons(events: seq<Read>)
    requires events != []
    ensures EofStreams(events) == (if events[0].data == "" then {events[0].stream} else {}) + EofStreams(events[1..])
  {
    var r, rest := events[0], events[1..];
    forall x | x in EofStreams(events) ensures x in (if r.data == "" then {r.stream} else {}) + EofStreams(rest) {
      var y :| y in events && y.data == "" && y.stream == x;
      if y != r {
        var i :| 0 <= i < |events| && events[i] == y;
        assert rest[i - 1] == y;
      }
    }
    forall x | x in EofStreams(rest) ensures x in EofStreams(events) {
      var y :| y in rest && y.data == "" && y.stream == x;
      assert y in events;
    }
  }

  // ---------------------------------------------------------------------------
  // Facts about the aggregates over lines

  lemma {:induction false} LogOfAppend(xs: seq<string>, ys: seq<string>)
    ensures LogOf(xs + ys) == LogOf(xs) + LogOf(ys)
    decreases |xs|
  {
    if xs == [] {
      assert xs + ys == ys;
    } else {
      assert (xs + ys)[0] == xs[0] && (xs + ys)[1..] == xs[1..] + ys;
      LogOfAppend(xs[1..], ys);
      AppendAssoc(Logged(xs[0]), LogOf(xs[1..]), LogOf(ys));
    }
  }

  lemma AppendAssoc<T>(a: seq<T>, b: seq<T>, c: seq<T>)
    ensures (a + b) + c == a + (b + c)
  {
  }

  /** Number of lines dropped as noise. */
  function NoiseCount(raws: seq<string>): nat
    decreases |raws|
  {
    if raws == [] then 0
    else (if IsNoiseIgnoreCase(RStrip(raws[0])) then 1 else 0) + NoiseCount(raws[1..])
  }

  /** Every line reaches the log or is counted as noise: none is lost or duplicated. */
  lemma {:induction false} LogOfCount(raws: seq<string>)
    ensures |LogOf(raws)| + NoiseCount(raws) == |raws|
    decreases |raws|
  {
    if raws != [] {
      LogOfCount(raws[1..]);
    }
  }

  lemma {:induction false} CopiesAppend(xs: seq<string>, ys: seq<string>)
    ensures Copies(xs + ys) == Copies(xs) + Copies(ys)
    decreases |xs|
  {
    if xs == [] {
      assert xs + ys == ys;
    } else {
      assert (xs + ys)[1..] == xs[1..] + ys;
      CopiesAppend(xs[1..], ys);
    }
  }

  /** Later result lines overwrite earlier ones. */
  lemma {:induction false} LastResultAppend(xs: seq<string>, ys: seq<string>)
    ensures LastResult(xs + ys) == if LastResult(ys).Some? then LastResult(ys) else LastResult(xs)
    decreases |xs|
  {
    if xs == [] {
      assert xs + ys == ys;
    } else {
      assert (xs + ys)[1..] == xs[1..] + ys;
      LastResultAppend(xs[1..], ys);
    }
  }

  /** `stream_output` over the lines of one stream: every line is a step
      without a bar, in order. */
  function Output(st: DrainState, stream: Stream, raws: seq<string>): DrainState
    decreases |raws|
  {
    if raws == [] then st
    else LineStep(Output(st, stream, raws[..|raws| - 1]), false, stream, raws[|raws| - 1])
  }

  /** One more line of a prefix is one more step. */
  lemma OutputExtend(st: DrainState, stream: Stream, raws: seq<string>, i: nat)
    requires i < |raws|
    ensures Output(st, stream, raws[..i + 1]) == LineStep(Output(st, stream, raws[..i]), false, stream, raws[i])
  {
    assert raws[..i + 1][..i] == raws[..i];
  }

  /** The lines before the first empty read are exactly `UntilEof`. */
  lemma {:induction false} UntilEofPrefix(ds: seq<string>, i: nat)
    requires i <= |ds| && (i == |ds| || ds[i] == "")
    requires forall j | 0 <= j < i :: ds[j] != ""
    ensures UntilEof(ds) == ds[..i]
    decreases i
  {
    if i > 0 {
      UntilEofPrefix(ds[1..], i - 1);
      assert ds[..i] == [ds[0]] + ds[1..][..i - 1];
    }
  }

  /** `stream_output` logs the lines of its stream, noise dropped, to that
      stream's sink, and nothing to the other. */
  lemma {:induction false} OutputSink(st: DrainState, stream: Stream, raws: seq<string>, s: Stream)
    ensures Sink(Output(st, stream, raws), s) == Sink(st, s) + (if s == stream then LogOf(raws) else [])
    decreases |raws|
  {
    if raws != [] {
      var init, last := raws[..|raws| - 1], raws[|raws| - 1];
      var mid := Output(st, stream, init);
      OutputSink(st, stream, init, s);
      LineStepSink(mid, false, stream, last, s);
      if s == stream {
        LogOfSnoc(raws);
        AppendAssoc(Sink(st, s), LogOf(init), Logged(last));
      }
    }
  }

  lemma {:induction false} LogOfSnoc(raws: seq<string>)
    requires raws != []
    ensures LogOf(raws) == LogOf(raws[..|raws| - 1]) + Logged(raws[|raws| - 1])
    decreases |raws|
  {
    var n := |raws| - 1;
    if n == 0 {
      assert raws[1..] == [] && raws[..0] == [];
      assert Logged(raws[0]) + [] == Logged(raws[0]);
    } else {
      var tail := raws[1..];
      LogOfSnoc(tail);
      assert tail[..n - 1] == raws[..n][1..] && tail[n - 1] == raws[n];
      assert raws[..n][0] == raws[0];
      AppendAssoc(Logged(raws[0]), LogOf(tail[..n - 1]), Logged(raws[n]));
    }
  }

  /** `stream_output` never advances a bar and never closes a stream. */
  lemma {:induction false} OutputTicksOpen(st: DrainState, stream: Stream, raws: seq<string>)
    ensures Output(st, stream, raws).ticks == st.ticks
    ensures Output(st, stream, raws).open == st.open
    decreases |raws|
  {
    if raws != [] {
      var init, last := raws[..|raws| - 1], raws[|raws| - 1];
      OutputTicksOpen(st, stream, init);
      LineStepTicks(Output(st, stream, init), false, stream, last);
      LineStepOpen(Output(st, stream, init), false, stream, last);
    }
  }

  /** The result captured by `stream_output` is that of its last result line. */
  lemma {:induction false} OutputResult(st: DrainState, stream: Stream, raws: seq<string>)
    ensures var fin := Output(st, stream, raws);
      match LastResult(raws)
      case Some(rc) => fin.mirrored == Some(rc.mirrored) && fin.images == Some(rc.images)
      case None => fin.mirrored == st.mirrored && fin.images == st.images
    decreases |raws|
  {
    if raws != [] {
      var init, last := raws[..|raws| - 1], raws[|raws| - 1];
      OutputResult(st, stream, init);
      LineStepResult(Output(st, stream, init), false, stream, last);
      assert init + [last] == raws;
      LastResultAppend(init, [last]);
    }
  }

  /** From the initial state, each sink holds the logged lines its stream
      produced before its end, whatever the interleaving of the two streams. */
  lemma DrainFromStart(hasBar: bool, events: seq<Read>, s: Stream)
    ensures Sink(Drain(InitialState(), hasBar, events), s) == LogOf(UntilEof(StreamData(events, s)))
  {
    DrainSink(InitialState(), hasBar, events, s);
    DeliveredPerStream(InitialState().open, events, s);
  }

  /** The selector loop and `stream_output` run on the same lines of a stream
      fill that stream's sink identically. */
  lemma DrainAgreesWithOutput(hasBar: bool, events: seq<Read>, s: Stream)
    ensures Sink(Drain(InitialState(), hasBar, events), s)
         == Sink(Output(InitialState(), s, UntilEof(StreamData(events, s))), s)
  {
    DrainFromStart(hasBar, events, s);
    OutputSink(InitialState(), s, UntilEof(StreamData(events, s)), s);
  }

  // ---------------------------------------------------------------------------
  // The drain in place

  class StreamProcessor {
    var mirrored: Option<nat>
    var images: Option<nat>
    var ticks: nat
    var debugLog: seq<string>
    var errorLog: seq<string>
    var open: set<Stream>
    /** Whether a progress bar was supplied (`progress_bar is not None`). */
    const hasBar: bool

    function State(): DrainState
      reads this
    {
      DrainState(mirrored, images, ticks, debugLog, errorLog, open)
    }

    constructor (hasBar: bool)
      ensures State() == InitialState() && this.hasBar == hasBar
    {
      mirrored, images, ticks := None, None, 0;
      debugLog, errorLog := [], [];
      open := {Stdout, Stderr};
      this.hasBar := hasBar;
    }

    /** The body of the selector loop for one non-empty line. */
    method ProcessLine(stream: Stream, raw: string)
      modifies this
      ensures State() == LineStep(old(State()), hasBar, stream, raw)
    {
      var line := RStrip(raw);
      var found := FindResult(line);
      if found.Some? {
        mirrored := Some(found.value.mirrored);
        images := Some(found.value.images);
      }
      assert State() == Capture(old(State()), line);
      if IsImageCopied(line) && hasBar {
        ticks := ticks + 1;
      }
      assert State() == Tick(Capture(old(State()), line), hasBar, line);
      var clean := StripLogPrefix(line);
      if !IsNoiseIgnoreCase(line) {
        if stream == Stdout {
          debugLog := debugLog + [clean];
        } else {
          errorLog := errorLog + [clean];
        }
      }
    }

    /** `_process_streams`: consume events until both streams are closed. */
    method ProcessStreams(events: seq<Read>)
      modifies this
      ensures State() == Drain(old(State()), hasBar, events)
    {
      var i := 0;
      while i < |events| && open != {}
        invariant 0 <= i <= |events|
        invariant Drain(old(State()), hasBar, events) == Drain(State(), hasBar, events[i..])
        decreases |events| - i
      {
        var r := events[i];
        assert events[i..][1..] == events[i + 1..];
        if r.stream in open {
          if r.data == "" {
            open := open - {r.stream};
          } else {
            ProcessLine(r.stream, r.data);
          }
        }
        i := i + 1;
      }
    }

    /** One line of `stream_output`: the same step as the selector loop's
        without a bar, with the noise test written on the lower-cased line. */
    method OutputLine(stream: Stream, raw: string)
      modifies this
      ensures State() == LineStep(old(State()), false, stream, raw)
    {
      var line := RStrip(raw);
      var found := FindResult(line);
      if found.Some? {
        mirrored := Some(found.value.mirrored);
        images := Some(found.value.images);
      }
      assert State() == Tick(Capture(old(State()), line), false, line);
      var clean := StripLogPrefix(line);
      NoiseFormsAgree(line);
      if !IsNoise(line) {
        if stream == Stdout {
          debugLog := debugLog + [clean];
        } else {
          errorLog := errorLog + [clean];
        }
      }
    }

    /** `stream_output`: drain one pipe into its sink until the first empty read. */
    method StreamOutput(stream: Stream, events: seq<string>)
      modifies this
      ensures State() == Output(old(State()), stream, UntilEof(events))
    {
      var i := 0;
      while i < |events| && events[i] != ""
        invariant 0 <= i <= |events|
        invariant forall j | 0 <= j < i :: events[j] != ""
        invariant State() == Output(old(State()), stream, events[..i])
        decreases |events| - i
      {
        assert forall j | 0 <= j < i + 1 :: events[j] != "";
        OutputNext(stream, old(State()), events, i);
        i := i + 1;
      }
      UntilEofPrefix(events, i);
    }

    /** One more line of `stream_output` extends the fold by that line. */
    method OutputNext(stream: Stream, ghost st0: DrainState, events: seq<string>, i: nat)
      modifies this
      requires i < |events| && State() == Output(st0, stream, events[..i])
      ensures State() == Output(st0, stream, events[..i + 1])
    {
      OutputLine(stream, events[i]);
      OutputExtend(st0, stream, events, i);
    }
  }
}
