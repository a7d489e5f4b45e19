/** The test rig's start-button debouncer (test_rig/button.c). A timer polls
    the button about every 11 ms; a press is reported on the second poll
    that sees the button down after it was last reported up (an up poll in
    between does not reset the count), a release on the first poll that
    sees it up after a press.
    Reports are one-byte USB interrupt transfers, modelled as the reported
    value. */
module Button {
  import opened Common

  datatype ButtonState = Up | Bounce | Down

  /** button_init. */
  function Init(): (r: ButtonState)
    ensures r == Up
  {
    Up
  }

  /** button_poll: `down` is the inverted pin level (the button pulls the pin
      low). Returns the new state and the report sent, if any. */
  function Poll(s: ButtonState, down: bool): (r: (ButtonState, Option<bool>))
    ensures r.1 == Some(true) <==> s == Bounce && down
    ensures r.1 == Some(false) <==> s == Down && !down
    ensures r.1.Some? ==> r.0 == (if r.1.value then Down else Up)
    ensures s == Up && down ==> r.0 == Bounce
    ensures !(s == Up && down) && r.1.None? ==> r.0 == s
  {
    if s == Up && down then (Bounce, None)
    else if s == Bounce && down then (Down, Some(true))
    else if s == Down && !down then (Up, Some(false))
    else (s, None)
  }

  /** The reports of a sequence of polls, in order. */
  function Run(s: ButtonState, samples: seq<bool>): (r: (ButtonState, seq<bool>))
    decreases |samples|
  {
    if samples == [] then (s, [])
    else
      var h := Poll(s, samples[0]);
      var t := Run(h.0, samples[1..]);
      (t.0, (if h.1.Some? then [h.1.value] else []) + t.1)
  }

  /** The reference: reports alternate, starting with `first`. */
  predicate AlternatesFrom(first: bool, reports: seq<bool>)
  {
    forall i :: 0 <= i < |reports| ==> reports[i] == (if i % 2 == 0 then first else !first)
  }

  /** Reports strictly alternate. From UP or BOUNCE the next report is a
      press, from DOWN a release; and the final state is DOWN exactly when
      the last report was a press (or, with no report, when it started DOWN). */
  lemma {:induction false} ReportsAlternate(s: ButtonState, samples: seq<bool>)
    ensures AlternatesFrom(s != Down, Run(s, samples).1)
    ensures var r := Run(s, samples);
      (r.0 == Down) == (if r.1 == [] then s == Down else r.1[|r.1| - 1])
    decreases |samples|
  {
    if samples != [] {
      var h := Poll(s, samples[0]);
      var t := Run(h.0, samples[1..]);
      ReportsAlternate(h.0, samples[1..]);
      var r := Run(s, samples);
      assert r.1 == (if h.1.Some? then [h.1.value] else []) + t.1;
      if h.1.Some? {
        assert h.1.value == (s != Down);
        assert (h.0 != Down) == !h.1.value;
        forall i | 0 <= i < |r.1|
          ensures r.1[i] == (if i % 2 == 0 then s != Down else s == Down)
        {
          if i > 0 {
            assert r.1[i] == t.1[i - 1];
          }
        }
      } else {
        assert (h.0 == Down) == (s == Down);
        assert r.1 == t.1;
      }
    }
  }

  /** From power-up the first report is a press, then a release, and so on. */
  lemma FromInitPressFirst(samples: seq<bool>)
    ensures AlternatesFrom(true, Run(Init(), samples).1)
  {
    ReportsAlternate(Init(), samples);
  }

  /** A poll that sees the button up while bouncing does not return to UP:
      two isolated down samples, however far apart, report a press. */
  lemma IsolatedGlitchesReportPress()
    ensures Run(Up, [true, false, false, true]).1 == [true]
  {
    assert [true, false, false, true][1..] == [false, false, true];
    assert [false, false, true][1..] == [false, true];
    assert [false, true][1..] == [true];
    assert [true][1..] == [];
  }
}
