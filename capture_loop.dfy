/**
 The capture loop of blur.py: each pass reads a frame, shows the frame the
 current mode produces, then reads a key that may toggle a filter or end the
 loop. The loop ends on a failed read or on the quit key; the model runs it
 over a finite sequence of per-pass inputs, so it can also end when they run out.
 */
module CaptureLoop {
  import opened FilterMode
  import opened FrameDispatch

  /**
   The inputs of one pass: the read failed, or it gave a frame, the face
   mesh's landmarks for it, and the raw code waitKey returned.
   */
  datatype Event<F> = ReadFailed | Captured(frame: F, faces: seq<seq<Landmark>>, rawKey: int)

  /** Why the loop ended. */
  datatype Exit = ReadFailure | QuitPressed | EventsExhausted

  /** What a run produces: the frames shown in order, the final mode, and why it ended. */
  datatype Trace<F> = Trace(shown: seq<F>, mode: Mode, exit: Exit)

  /** A pass that ends the loop: a failed read, or a frame followed by the quit key. */
  function Stops<F>(e: Event<F>): (s: bool)
    ensures s && e.Captured? ==> FilterFor(KeyCode(e.rawKey)).None?
    ensures e.ReadFailed? ==> s
  {
    e.ReadFailed? || KeyCode(e.rawKey) == QuitKey
  }

  /** The index of the first pass that ends the loop, or the number of passes if none does. */
  function FirstStop<F>(events: seq<Event<F>>): (s: nat)
    ensures s <= |events|
    ensures forall i :: 0 <= i < s ==> !Stops(events[i])
    ensures s < |events| ==> Stops(events[s])
    decreases |events|
  {
    if |events| == 0 then 0
    else if Stops(events[0]) then 0
    else 1 + FirstStop(events[1..])
  }

  /** The masked key codes of the passes that read a frame, in order. */
  function KeysOf<F>(events: seq<Event<F>>): seq<Key>
    decreases |events|
  {
    if |events| == 0 then []
    else (if events[0].Captured? then [KeyCode(events[0].rawKey)] else []) + KeysOf(events[1..])
  }

  /** `shown` followed by what a later part of the run produces. */
  function Prepend<F>(shown: seq<F>, t: Trace<F>): Trace<F>
  {
    Trace(shown + t.shown, t.mode, t.exit)
  }

  /** The run of the loop from mode `m` over `events`, one pass per event. */
  function RunFrom<F, M>(lib: Vision<F, M>, m: Mode, events: seq<Event<F>>): (t: Trace<F>)
    ensures |t.shown| <= |events|
    ensures t.exit == EventsExhausted ==> |t.shown| == |events|
    ensures t.exit == QuitPressed ==> |t.shown| > 0
    decreases |events|
  {
    if |events| == 0 then Trace([], m, EventsExhausted)
    else
      match events[0]
      case ReadFailed => Trace([], m, ReadFailure)
      case Captured(frame, faces, raw) =>
        var shown := Displayed(lib, m, frame, faces);
        var k := KeyCode(raw);
        if k == QuitKey then Trace([shown], m, QuitPressed)
        else Prepend([shown], RunFrom(lib, Step(m, k), events[1..]))
  }

  /** The loop as blur.py runs it, from `filter_mode = None`, with `break` as an early return. */
  method Run<F, M>(lib: Vision<F, M>, events: seq<Event<F>>) returns (trace: Trace<F>)
    ensures trace == RunFrom(lib, Initial, events)
  {
    var mode := Initial;
    var shown: seq<F> := [];
    var i := 0;
    while i < |events|
      invariant 0 <= i <= |events|
      invariant Prepend(shown, RunFrom(lib, mode, events[i..])) == RunFrom(lib, Initial, events)
    {
      assert events[i..][0] == events[i];
      assert events[i..][1..] == events[i + 1..];
      match events[i]
      case ReadFailed =>
        return Trace(shown, mode, ReadFailure);
      case Captured(frame, faces, raw) =>
        var combined := ProcessFrame(lib, mode, frame, faces);
        ghost var before := shown;
        shown := shown + [combined];
        var key := KeyCode(raw);
        if key == QuitKey {
          return Trace(shown, mode, QuitPressed);
        }
        assert before + ([combined] + RunFrom(lib, Step(mode, key), events[i + 1..]).shown)
            == shown + RunFrom(lib, Step(mode, key), events[i + 1..]).shown;
        mode := Step(mode, key);
      i := i + 1;
    }
    assert events[i..] == [];
    trace := Trace(shown, mode, EventsExhausted);
  }

  /**
   How a run ends: it stops at the first failed read or quit key, or runs out
   of passes; it shows one frame per pass before the stop, plus the frame of
   the quit pass; and its final mode is the one the keys of the passes before
   the stop produce, so neither the quit key nor a failed read changes it.
   */
  lemma {:induction false} RunFromEnds<F, M>(lib: Vision<F, M>, m: Mode, events: seq<Event<F>>)
    ensures RunFrom(lib, m, events).exit == EventsExhausted <==> FirstStop(events) == |events|
    ensures RunFrom(lib, m, events).exit == ReadFailure <==>
              FirstStop(events) < |events| && events[FirstStop(events)].ReadFailed?
    ensures RunFrom(lib, m, events).exit == QuitPressed <==>
              FirstStop(events) < |events| && events[FirstStop(events)].Captured?
    ensures |RunFrom(lib, m, events).shown| ==
              if RunFrom(lib, m, events).exit == QuitPressed then FirstStop(events) + 1 else FirstStop(events)
    ensures RunFrom(lib, m, events).mode == Press(m, KeysOf(events[..FirstStop(events)]))
    decreases |events|
  {
    if |events| > 0 && !Stops(events[0]) {
      var k := KeyCode(events[0].rawKey);
      var rest := events[1..];
      RunFromEnds(lib, Step(m, k), rest);
      var s := FirstStop(events);
      assert s == 1 + FirstStop(rest);
      assert events[..s][0] == events[0];
      assert events[..s][1..] == rest[..s - 1];
      assert KeysOf(events[..s]) == [k] + KeysOf(rest[..s - 1]);
      assert ([k] + KeysOf(rest[..s - 1]))[1..] == KeysOf(rest[..s - 1]);
      if s < |events| { assert events[s] == rest[s - 1]; }
    } else {
      assert events[..0] == [];
    }
  }

  /**
   The i-th frame shown comes from the i-th pass, filtered with the mode that
   the keys of the earlier passes produced: a key acts from the next frame on.
   */
  lemma {:induction false} RunFromShown<F, M>(lib: Vision<F, M>, m: Mode, events: seq<Event<F>>, i: nat)
    requires i < |RunFrom(lib, m, events).shown|
    ensures i < |events| && events[i].Captured?
    ensures RunFrom(lib, m, events).shown[i] ==
              Displayed(lib, Press(m, KeysOf(events[..i])), events[i].frame, events[i].faces)
    decreases |events|
  {
    var k := KeyCode(events[0].rawKey);
    if i == 0 {
      assert events[..0] == [];
    } else {
      var rest := events[1..];
      RunFromShown(lib, Step(m, k), rest, i - 1);
      assert events[..i][0] == events[0];
      assert events[..i][1..] == rest[..i - 1];
      assert KeysOf(events[..i]) == [k] + KeysOf(rest[..i - 1]);
      assert ([k] + KeysOf(rest[..i - 1]))[1..] == KeysOf(rest[..i - 1]);
    }
  }

  /** Nothing after the pass that stops the loop is ever read. */
  lemma {:induction false} RunFromIgnoresLaterEvents<F, M>(lib: Vision<F, M>, m: Mode, events: seq<Event<F>>, later: seq<Event<F>>)
    requires FirstStop(events) < |events|
    ensures RunFrom(lib, m, events + later) == RunFrom(lib, m, events)
    decreases |events|
  {
    assert (events + later)[0] == events[0];
    if !Stops(events[0]) {
      assert (events + later)[1..] == events[1..] + later;
      RunFromIgnoresLaterEvents(lib, Step(m, KeyCode(events[0].rawKey)), events[1..], later);
    }
  }
}
