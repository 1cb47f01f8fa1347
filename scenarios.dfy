/** Worked scenarios: three tabs of widths 60, 80 and 100 laid out from x = 0,
    a 300-wide viewport and a 240-wide strip, measured in a scrambled order
    while the progress value already stands at 0.5. */
module TabBarScenarios {
  import opened TabGeometry
  import opened TabBarSync

  const Labels: seq<string> := ["a", "b", "c"]

  const Tab0 := LayoutBox(0.0, 0.0, 60.0, 49.0)
  const Tab1 := LayoutBox(60.0, 0.0, 80.0, 49.0)
  const Tab2 := LayoutBox(140.0, 0.0, 100.0, 49.0)
  const Viewport := LayoutBox(0.0, 0.0, 300.0, 50.0)
  const Strip := LayoutBox(0.0, 0.0, 240.0, 49.0)

  /** The layout events, in a scrambled arrival order. */
  function Layouts(): seq<Event>
  {
    [TabLayout(2, Tab2), ContainerLayout(Viewport), TabLayout(0, Tab0),
     TabContainerLayout(Strip), TabLayout(1, Tab1)]
  }

  /** The store that the five layout events build, whatever their order. */
  function Measured(): Store
  {
    Store(map[0 := TabBox(0.0, 60.0, 60.0, 49.0), 1 := TabBox(60.0, 140.0, 80.0, 49.0),
              2 := TabBox(140.0, 240.0, 100.0, 49.0)],
          Some(Strip), Some(Viewport))
  }

  /** Halfway between the first and second tab: the underline spans x = 30 to
      x = 100; on Android the strip stays at 0 (the centring offset, -85, is
      floored); elsewhere the cap strip - viewport = -60 is applied after the
      floor, so the strip is asked to scroll to -60. */
  lemma HalfwayScenario(onAndroid: bool)
    ensures var f := Run(Platform(onAndroid, 320.0), Initial(Labels, 0.5), Layouts());
      && f.store == Measured()
      && f.out.underline == Underline(30.0, 70.0)
      && f.out.scrollX == (if onAndroid then 0.0 else -60.0)
  {
    var p := Platform(onAndroid, 320.0);
    var s := Initial(Labels, 0.5);
    var evs := Layouts();
    RunAppend(p, s, evs[..4], [evs[4]]);
    assert evs == evs[..4] + [evs[4]];
    var before := Run(p, s, evs[..4]);
    RunAppend(p, s, evs[..2], evs[2..4]);
    assert evs[..4] == evs[..2] + evs[2..4];
    RunPair(p, s, evs[0], evs[1]);
    assert evs[..2] == [evs[0], evs[1]];
    RunPair(p, Run(p, s, evs[..2]), evs[2], evs[3]);
    assert evs[2..4] == [evs[2], evs[3]];
    assert Run(p, before, [evs[4]]) == Step(p, before, evs[4]);
    var f := Step(p, before, evs[4]);
    assert f.store.tabs == Measured().tabs;
    PositionInRange(0.5, 3);
    assert PagePosition(0.5) == 0 && PageOffset(0.5) == 0.5;
    RefreshWhenReady(onAndroid, f.store, 0.5, 3, before.out);
  }

  /** At the end of the strip (progress 2.0, the last of three tabs) the
      underline is exactly the last tab's box. */
  lemma LastTabScenario(onAndroid: bool, out: Outputs)
    ensures Refresh(onAndroid, Measured(), 2.0, 3, out).underline == Underline(140.0, 100.0)
  {
  }

  /** A progress value past the last tab, or below 0, is overscroll and leaves
      the outputs alone even when everything is measured. */
  lemma OverscrollScenario(onAndroid: bool, out: Outputs)
    ensures Refresh(onAndroid, Measured(), 2.25, 3, out) == out
    ensures Refresh(onAndroid, Measured(), -0.25, 3, out) == out
  {
  }
}
