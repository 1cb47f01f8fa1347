/** The tab bar's synchronisation state as values: the measurement store, the
    readiness gate, one progress update (updateView), and the effect of every
    event the component reacts to, as a state machine. The class in module
    TabBar is proved to follow Step event by event. */
module TabBarSync {
  import opened TabGeometry

  /** What the layout events have recorded so far: tab boxes keyed by page
      (they arrive lazily and in any order), the strip's layout box
      (`_tabContainerMeasurements`) and the viewport's (`_containerMeasurements`). */
  datatype Store = Store(tabs: map<nat, TabBox>, strip: Option<LayoutBox>, container: Option<LayoutBox>)

  /** The two outputs: the underline's style target and the strip's scroll offset. */
  datatype Outputs = Outputs(underline: Underline, scrollX: real)

  /** `Platform.OS === 'android'` and the window width read once when the module loads. */
  datatype Platform = Platform(onAndroid: bool, windowWidth: real)

  /** The whole component: its tab labels, the store, the strip width it asks
      for (`state._containerWidth`), the current progress value and the outputs. */
  datatype State = State(tabs: seq<string>, store: Store, containerWidth: Option<real>,
                         progress: real, out: Outputs)

  /** The events the component reacts to. */
  datatype Event =
    | ScrollValue(value: real)                 // the progress value changed; the listener fires
    | TabLayout(page: nat, layout: LayoutBox)  // measureTab
    | TabContainerLayout(layout: LayoutBox)    // onTabContainerLayout
    | ContainerLayout(layout: LayoutBox)       // onContainerLayout
    | TabsChanged(tabs: seq<string>)           // new props, then componentDidUpdate

  /** The state right after construction: nothing measured, outputs at 0. No
      position is ready in it, so no update can write an output before some
      layout event arrives. */
  function Initial(tabs: seq<string>, progress: real): (s: State)
    ensures forall position: nat, isLastTab: bool :: !Ready(s.store, position, isLastTab)
  {
    State(tabs, Store(map[], None, None), None, progress, Outputs(Underline(0.0, 0.0), 0.0))
  }

  // ---------------------------------------------------------------------------
  // The readiness gate and one update

  /** updateView's range guard: there are tabs and the progress value lies in
      [0, tabCount - 1]. Overscroll outside that range is skipped. */
  predicate InRange(value: real, tabCount: nat)
  {
    tabCount != 0 && 0.0 <= value && value <= (tabCount - 1) as real
  }

  /** necessarilyMeasurementsCompleted: the tab at `position`, the next tab
      unless this one is the last, the strip and the viewport are all measured. */
  predicate Ready(store: Store, position: nat, isLastTab: bool)
  {
    && position in store.tabs
    && (isLastTab || position + 1 in store.tabs)
    && store.strip.Some?
    && store.container.Some?
  }

  /** The width the next tab contributes to the scroll target: 0 when it has
      not been measured (`nextTabMeasurements && nextTabMeasurements.width || 0`). */
  function NextTabWidth(tabs: map<nat, TabBox>, position: nat): (w: real)
  {
    if position + 1 in tabs then tabs[position + 1].width else 0.0
  }

  /** updateTabUnderline: blend toward the next tab, except on the last tab. */
  function UnderlineFor(tabs: map<nat, TabBox>, position: nat, offset: real, tabCount: nat): (u: Underline)
    requires position in tabs
    requires position < tabCount - 1 ==> position + 1 in tabs
  {
    if position < tabCount - 1 then BlendedUnderline(tabs[position], tabs[position + 1], offset)
    else RestingUnderline(tabs[position])
  }

  /** updateTabPanel's target for a measured position. */
  function ScrollFor(onAndroid: bool, store: Store, position: nat, offset: real): (x: real)
    requires position in store.tabs && store.strip.Some? && store.container.Some?
  {
    ScrollTarget(onAndroid, store.tabs[position].left, store.tabs[position].width,
                 NextTabWidth(store.tabs, position), offset,
                 store.container.value.width, store.strip.value.width)
  }

  /** updateView for one progress value: decode it into page and fraction; when
      it is in range and the store is ready for that page, both outputs are
      recomputed, otherwise they are left exactly as they were. */
  function Refresh(onAndroid: bool, store: Store, value: real, tabCount: nat, out: Outputs): (r: Outputs)
    ensures !InRange(value, tabCount) ==> r == out
    ensures r != out ==>
      InRange(value, tabCount) && Ready(store, PagePosition(value) as nat, PagePosition(value) == tabCount - 1)
  {
    if !InRange(value, tabCount) then out
    else
      var position := PagePosition(value);
      var offset := PageOffset(value);
      assert 0 <= position;
      var isLast := position == tabCount - 1;
      if Ready(store, position, isLast) then
        Outputs(UnderlineFor(store.tabs, position, offset, tabCount),
                ScrollFor(onAndroid, store, position, offset))
      else out
  }

  // ---------------------------------------------------------------------------
  // Events

  /** The effect of one event. Every layout handler records its box and then
      re-runs the update with the current progress value; a change of tab
      labels only forgets the requested strip width, and only when one is set
      (a JavaScript-truthy width: present and not 0). */
  function Step(p: Platform, s: State, e: Event): (s': State)
  {
    match e
    case ScrollValue(v) =>
      s.(progress := v, out := Refresh(p.onAndroid, s.store, v, |s.tabs|, s.out))
    case TabLayout(page, l) =>
      var store := s.store.(tabs := s.store.tabs[page := TabMeasurement(l)]);
      s.(store := store, out := Refresh(p.onAndroid, store, s.progress, |s.tabs|, s.out))
    case TabContainerLayout(l) =>
      var store := s.store.(strip := Some(l));
      s.(store := store, containerWidth := Some(Max(l.width, p.windowWidth)),
         out := Refresh(p.onAndroid, store, s.progress, |s.tabs|, s.out))
    case ContainerLayout(l) =>
      var store := s.store.(container := Some(l));
      s.(store := store, out := Refresh(p.onAndroid, store, s.progress, |s.tabs|, s.out))
    case TabsChanged(t) =>
      var reset := t != s.tabs && s.containerWidth.Some? && s.containerWidth.value != 0.0;
      s.(tabs := t, containerWidth := if reset then None else s.containerWidth)
  }

  /** The state after a sequence of events, in order. */
  function Run(p: Platform, s: State, events: seq<Event>): (f: State)
    decreases |events|
  {
    if events == [] then s else Run(p, Step(p, s, events[0]), events[1..])
  }

  predicate IsLayout(e: Event)
  {
    e.TabLayout? || e.TabContainerLayout? || e.ContainerLayout?
  }

  // ---------------------------------------------------------------------------
  // Properties of one update

  /** When the gate opens, the outputs are exactly the underline and scroll
      target of the decoded page and fraction, whatever they were before. */
  lemma RefreshWhenReady(onAndroid: bool, store: Store, value: real, tabCount: nat, out: Outputs)
    requires InRange(value, tabCount)
    requires Ready(store, PagePosition(value) as nat, PagePosition(value) == tabCount - 1)
    ensures PagePosition(value) < tabCount - 1 ==> PagePosition(value) + 1 in store.tabs
    ensures Refresh(onAndroid, store, value, tabCount, out)
         == Outputs(UnderlineFor(store.tabs, PagePosition(value) as nat, PageOffset(value), tabCount),
                    ScrollFor(onAndroid, store, PagePosition(value) as nat, PageOffset(value)))
  {
  }

  /** On the last tab the outputs rest on that tab, whatever its neighbour's
      leftover measurement: the underline is the tab's own box and the scroll
      target is the same as with no next tab at all. */
  lemma LastTabRests(onAndroid: bool, store: Store, tabCount: nat, out: Outputs)
    requires tabCount >= 1
    requires Ready(store, tabCount - 1, true)
    requires Consistent(store.tabs[tabCount - 1])
    ensures var last := store.tabs[tabCount - 1];
      Refresh(onAndroid, store, (tabCount - 1) as real, tabCount, out)
      == Outputs(Underline(last.left, last.width),
                 ScrollTarget(onAndroid, last.left, last.width, 0.0, 0.0,
                              store.container.value.width, store.strip.value.width))
  {
  }

  /** Whenever an update writes, the `|| 0` fallback for an unmeasured next tab
      plays no part: off the last tab readiness guarantees the next tab is
      measured, and on the last tab the offset is 0, so any next width gives
      the same scroll target. */
  lemma FallbackWidthUnused(onAndroid: bool, store: Store, value: real, tabCount: nat, otherWidth: real)
    requires InRange(value, tabCount)
    requires Ready(store, PagePosition(value) as nat, PagePosition(value) == tabCount - 1)
    ensures var position := PagePosition(value) as nat;
      && (position < tabCount - 1 ==> NextTabWidth(store.tabs, position) == store.tabs[position + 1].width)
      && (position == tabCount - 1 ==>
            ScrollFor(onAndroid, store, position, PageOffset(value))
            == ScrollTarget(onAndroid, store.tabs[position].left, store.tabs[position].width, otherWidth,
                            PageOffset(value), store.container.value.width, store.strip.value.width))
  {
  }

  /** Updating twice with the same store and progress value is updating once. */
  lemma RefreshIdempotent(onAndroid: bool, store: Store, value: real, tabCount: nat, out: Outputs)
    ensures var once := Refresh(onAndroid, store, value, tabCount, out);
      Refresh(onAndroid, store, value, tabCount, once) == once
  {
  }

  // ---------------------------------------------------------------------------
  // The store only grows

  /** `later` holds every measurement `earlier` holds (perhaps re-measured). */
  predicate Extends(earlier: Store, later: Store)
  {
    && earlier.tabs.Keys <= later.tabs.Keys
    && (earlier.strip.Some? ==> later.strip.Some?)
    && (earlier.container.Some? ==> later.container.Some?)
  }

  /** Readiness is kept by any store that extends a ready one. */
  lemma ReadyMonotone(earlier: Store, later: Store, position: nat, isLastTab: bool)
    requires Extends(earlier, later)
    requires Ready(earlier, position, isLastTab)
    ensures Ready(later, position, isLastTab)
  {
  }

  /** No event forgets a measurement: in particular a change of tab labels keeps
      every tab, strip and viewport measurement. */
  lemma StepExtends(p: Platform, s: State, e: Event)
    ensures Extends(s.store, Step(p, s, e).store)
    ensures e.TabsChanged? ==> Step(p, s, e).store == s.store
  {
  }

  /** No sequence of events forgets a measurement. */
  lemma {:induction false} RunExtends(p: Platform, s: State, events: seq<Event>)
    ensures Extends(s.store, Run(p, s, events).store)
    decreases |events|
  {
    if events != [] {
      var s' := Step(p, s, events[0]);
      StepExtends(p, s, events[0]);
      RunExtends(p, s', events[1..]);
    }
  }

  /** Every stored tab box is consistent (right == left + width). */
  predicate StoreConsistent(store: Store)
  {
    forall page :: page in store.tabs ==> Consistent(store.tabs[page])
  }

  /** Recorded tab boxes stay consistent over any sequence of events. */
  lemma {:induction false} RunKeepsConsistent(p: Platform, s: State, events: seq<Event>)
    requires StoreConsistent(s.store)
    ensures StoreConsistent(Run(p, s, events).store)
    decreases |events|
  {
    if events != [] {
      var s' := Step(p, s, events[0]);
      assert StoreConsistent(s'.store) by {
        if events[0].TabLayout? {
          var page := events[0].page;
          assert Consistent(TabMeasurement(events[0].layout));
        }
      }
      RunKeepsConsistent(p, s', events[1..]);
    }
  }

  /** The state's own progress value is in range and its store is ready for
      the page that value decodes to: an update now would write the outputs. */
  predicate ReadyNow(s: State)
  {
    InRange(s.progress, |s.tabs|)
    && Ready(s.store, PagePosition(s.progress) as nat, PagePosition(s.progress) == |s.tabs| - 1)
  }

  /** No state reached after any of the events is ReadyNow. */
  predicate NeverReady(p: Platform, s: State, events: seq<Event>)
    decreases |events|
  {
    events == [] || (!ReadyNow(Step(p, s, events[0])) && NeverReady(p, Step(p, s, events[0]), events[1..]))
  }

  /** Outputs are suppressed, not defaulted, until readiness: over any run in
      which no reached state is ready, the outputs stay exactly as they were.
      From Initial that means they stay at 0. */
  lemma {:induction false} OutputsWaitForReadiness(p: Platform, s: State, events: seq<Event>)
    requires NeverReady(p, s, events)
    ensures Run(p, s, events).out == s.out
    decreases |events|
  {
    if events != [] {
      var s' := Step(p, s, events[0]);
      assert s'.out == s.out;
      OutputsWaitForReadiness(p, s', events[1..]);
    }
  }

  /** Running two sequences one after the other is running their concatenation. */
  lemma {:induction false} RunAppend(p: Platform, s: State, first: seq<Event>, second: seq<Event>)
    ensures Run(p, s, first + second) == Run(p, Run(p, s, first), second)
    decreases |first|
  {
    if first == [] {
      assert first + second == second;
    } else {
      assert (first + second)[0] == first[0];
      assert (first + second)[1..] == first[1..] + second;
      RunAppend(p, Step(p, s, first[0]), first[1..], second);
    }
  }

  // ---------------------------------------------------------------------------
  // Properties of the events

  /** A layout event records its box, re-runs the update with the progress value
      the component already had (not 0), and keeps the labels and progress. */
  lemma LayoutUsesCurrentProgress(p: Platform, s: State, e: Event)
    requires IsLayout(e)
    ensures var s' := Step(p, s, e);
      && s'.progress == s.progress && s'.tabs == s.tabs
      && s'.out == Refresh(p.onAndroid, s'.store, s.progress, |s.tabs|, s.out)
  {
  }

  /** measureTab is an upsert: only the measured page changes, and it holds the
      box with right = x + width. */
  lemma TabLayoutUpserts(p: Platform, s: State, page: nat, l: LayoutBox)
    ensures var tabs' := Step(p, s, TabLayout(page, l)).store.tabs;
      && tabs'.Keys == s.store.tabs.Keys + {page}
      && tabs'[page] == TabBox(l.x, l.x + l.width, l.width, l.height)
      && (forall other :: other in s.store.tabs && other != page ==> tabs'[other] == s.store.tabs[other])
  {
  }

  /** Every event, delivered twice in a row, has the effect of delivering it
      once: the store, the requested width and the outputs all agree. */
  lemma StepIdempotent(p: Platform, s: State, e: Event)
    ensures Step(p, Step(p, s, e), e) == Step(p, s, e)
  {
  }

  /** A strip layout asks for the strip to be as wide as the strip's own layout
      and as the window: the larger of the two. */
  lemma StripWidthRequest(p: Platform, s: State, l: LayoutBox)
    ensures var w := Step(p, s, TabContainerLayout(l)).containerWidth;
      && w.Some? && w.value >= l.width && w.value >= p.windowWidth
      && (w.value == l.width || w.value == p.windowWidth)
  {
  }

  /** A change of labels forgets the requested strip width exactly when the
      labels differ and a non-zero width was set; measurements and outputs are
      kept, so readiness is unchanged. */
  lemma TabsChangedForgetsOnlyWidth(p: Platform, s: State, t: seq<string>, position: nat, isLastTab: bool)
    ensures var s' := Step(p, s, TabsChanged(t));
      && s'.store == s.store && s'.out == s.out && s'.progress == s.progress && s'.tabs == t
      && (s'.containerWidth.None? <==> s.containerWidth.None? || (t != s.tabs && s.containerWidth.value != 0.0))
      && (s'.containerWidth.Some? ==> s'.containerWidth == s.containerWidth)
      && (Ready(s'.store, position, isLastTab) <==> Ready(s.store, position, isLastTab))
  {
  }

  /** Running a two-event sequence is stepping twice. */
  lemma RunPair(p: Platform, s: State, x: Event, y: Event)
    ensures Run(p, s, [x, y]) == Step(p, Step(p, s, x), y)
  {
    var s1 := Step(p, s, x);
    assert [x, y][1..] == [y];
    assert Run(p, s, [x, y]) == Run(p, s1, [y]);
    assert [y][1..] == [];
    assert Run(p, s1, [y]) == Run(p, Step(p, s1, y), []);
  }

  /** Two tab measurements for different pages may arrive in either order: the
      store and the outputs end up the same. */
  lemma TabLayoutsCommute(p: Platform, s: State, a: nat, la: LayoutBox, b: nat, lb: LayoutBox)
    requires a != b
    ensures Run(p, s, [TabLayout(a, la), TabLayout(b, lb)]) == Run(p, s, [TabLayout(b, lb), TabLayout(a, la)])
  {
    var ab := Step(p, Step(p, s, TabLayout(a, la)), TabLayout(b, lb));
    var ba := Step(p, Step(p, s, TabLayout(b, lb)), TabLayout(a, la));
    RunPair(p, s, TabLayout(a, la), TabLayout(b, lb));
    RunPair(p, s, TabLayout(b, lb), TabLayout(a, la));
    assert ab.store == ba.store;
    var n := |s.tabs|;
    var v := s.progress;
    if InRange(v, n) {
      var position := PagePosition(v) as nat;
      var isLast := position == n - 1;
      if Ready(ab.store, position, isLast) {
        RefreshWhenReady(p.onAndroid, ab.store, v, n, Step(p, s, TabLayout(a, la)).out);
        RefreshWhenReady(p.onAndroid, ba.store, v, n, Step(p, s, TabLayout(b, lb)).out);
      } else {
        // Neither order was ready half-way: the outputs never moved.
        var first := Step(p, s, TabLayout(a, la));
        var other := Step(p, s, TabLayout(b, lb));
        if Ready(first.store, position, isLast) { ReadyMonotone(first.store, ab.store, position, isLast); }
        if Ready(other.store, position, isLast) { ReadyMonotone(other.store, ba.store, position, isLast); }
      }
    }
  }

  /** A measurement arriving late still gives a correct picture: after any
      history ending in a layout event or a progress tick, if the final store is
      ready for the final progress value, the outputs are exactly the underline
      and scroll target computed from the final store, never a stale or
      default value. */
  lemma LateArrival(p: Platform, s: State, history: seq<Event>, last: Event)
    requires IsLayout(last) || last.ScrollValue?
    requires var f := Run(p, s, history + [last]);
      InRange(f.progress, |f.tabs|)
      && Ready(f.store, PagePosition(f.progress) as nat, PagePosition(f.progress) == |f.tabs| - 1)
    ensures var f := Run(p, s, history + [last]);
      var position := PagePosition(f.progress) as nat;
      && (position < |f.tabs| - 1 ==> position + 1 in f.store.tabs)
      && f.out == Outputs(UnderlineFor(f.store.tabs, position, PageOffset(f.progress), |f.tabs|),
                          ScrollFor(p.onAndroid, f.store, position, PageOffset(f.progress)))
  {
    RunAppend(p, s, history, [last]);
    var before := Run(p, s, history);
    assert Run(p, before, [last]) == Step(p, before, last);
    var f := Step(p, before, last);
    RefreshWhenReady(p.onAndroid, f.store, f.progress, |f.tabs|, before.out);
  }
}
