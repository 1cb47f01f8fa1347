# Scrollable tab bar synchronisation, modelled in Dafny

This project models the synchronisation logic of `ScrollableTabBar`, a React
Native tab bar. The component keeps an underline and the strip's horizontal
scroll offset in step with a continuous progress value, the fractional page
index that the pager pushes on every animation tick.

Three inputs arrive independently:

- progress ticks, handled by `updateView`;
- one layout box per tab, arriving lazily and in any order (`measureTab`);
- the layout boxes of the strip (`onTabContainerLayout`) and of the viewport
  (`onContainerLayout`).

Every handler records its box and re-runs the update with the current progress
value. The update writes both outputs only when the readiness gate
(`necessarilyMeasurementsCompleted`) holds. Otherwise it is a silent no-op.

Files:

- `geometry.dfy`, module `TabGeometry`: the boxes, progress decoding (`Math.floor`
  and JavaScript's truncating `% 1`), the independent-edge underline blend and
  the centre-then-clamp scroll target, with their properties.
- `sync.dfy`, module `TabBarSync`: the measurement store, the readiness gate,
  one update (`Refresh`), and each event's effect as a state machine (`Step`,
  `Run`). The lemmas cover the gate, late arrival, order independence,
  idempotence and the tab-change branch.
- `tab_bar.dfy`, module `TabBar`: the component as a class. Its fields are the
  source's fields (`_tabsMeasurements`, `_tabContainerMeasurements`,
  `_containerMeasurements`, `state._containerWidth`). The outputs are written
  into fields. `updateTabPanel` builds its value step by step, as the source
  does. Each handler is proved to have exactly the effect `Step` gives the
  matching event.
- `scenarios.dfy`, module `TabBarScenarios`: a three-tab worked example
  measured in a scrambled order.

Layout numbers are `real`: the code only blends, floors and compares them.
`Platform.OS` and `Dimensions.get('window').width` are constructor parameters
(`onAndroid`, `windowWidth`). The current value of `props.scrollValue` is a
field that the progress listener (`OnScrollValue`) sets.

Two behaviours of the code differ from what one might expect of such a
component, and the model follows the code:

- A change of tab labels does not clear tab measurements. It only forgets the
  requested strip width, and only when that width is set and not 0 (JavaScript
  truthiness). Readiness therefore survives a label change
  (`TabsChangedForgetsOnlyWidth`).
- Off Android, the cap `stripWidth - containerWidth` is applied after the floor
  at 0. So the scroll target is negative whenever the strip is narrower than the
  viewport: it is not always in `[0, stripWidth - containerWidth]`
  (`ScrollTarget`, `HalfwayScenario`: -60 for a 240-wide strip in a 300-wide
  viewport).

## Model

| member | source | states |
|---|---|---|
| `TabGeometry.TabMeasurement` | ScrollableTabBar.js:156-158 | A tab's layout box is stored with left = x, the same width and height, and right = x + width, so the stored box is consistent |
| `TabGeometry.PageOffset` | ScrollableTabBar.js:70 | `value % 1` is JavaScript's truncating remainder: strictly between -1 and 1, with the sign of `value`, and `value` minus it is a whole number |
| `TabGeometry.DecodeProgress` | ScrollableTabBar.js:69-70 | For progress >= 0 the position floor(progress) is >= 0, the offset is in [0, 1), and position + offset == progress |
| `TabGeometry.PositionInRange` | ScrollableTabBar.js:69-78 | For progress in [0, tabCount-1] the position is a valid tab; it is the last tab exactly when progress == tabCount-1, and then the offset is 0 |
| `TabGeometry.BlendBetween` | ScrollableTabBar.js:123-124 | For t in [0,1] the blend t*to + (1-t)*from lies between from and to |
| `TabGeometry.BlendedEdges` | ScrollableTabBar.js:119-127 | Blending left and right edges independently gives left = blend of lefts, width = blend of widths (newRight - newLeft) and right edge = blend of rights |
| `TabGeometry.BlendedBetween` | ScrollableTabBar.js:119-127 | During a transition the underline's left edge, right edge and width stay between those of the current and next tab |
| `TabGeometry.BlendedEndpoints` | ScrollableTabBar.js:119-127 | At offset 0 the underline is exactly the current tab's box; at offset 1 exactly the next tab's |
| `TabGeometry.RestingIsBox` | ScrollableTabBar.js:128-131 | On the last tab the underline is that tab's left and right - left, which is its width |
| `TabGeometry.ScrollTarget` | ScrollableTabBar.js:93-113 | The scroll target is >= 0 on Android; elsewhere it is <= stripWidth - containerWidth, it is >= 0 exactly when stripWidth >= containerWidth, and when the strip is narrower than the viewport it is always stripWidth - containerWidth |
| `TabGeometry.ScrollTargetClamps` | ScrollableTabBar.js:103-111 | On Android, and off Android when stripWidth >= containerWidth, the target is the centring offset clamped: 0 when it is negative, the offset itself when in range, and stripWidth - containerWidth when past it (off Android); the narrow-strip case is stated by `ScrollTarget` |
| `TabGeometry.ScrollTargetCentres` | ScrollableTabBar.js:99-103 | When no clamp applies, target + containerWidth/2 is the blend centre: tab.left + offset*tabWidth + ((1-offset)*tabWidth + offset*nextWidth)/2 |
| `TabGeometry.CentreFollowsUnderline` | ScrollableTabBar.js:99-124 | For adjacent consistent tabs the point the scroll centres is the underline's centre |
| `TabGeometry.ScrollAtRestIgnoresNext` | ScrollableTabBar.js:96-103 | At offset 0 the next tab's width has no effect on the scroll target |
| `TabBarSync.Initial` | ScrollableTabBar.js:54-61 | A new component is not ready for any position, last tab or not, so nothing is written before a layout event arrives |
| `TabBarSync.FallbackWidthUnused` | ScrollableTabBar.js:85-103 | Whenever an update writes, the fallback to 0 for an unmeasured next tab plays no part: off the last tab the next tab is measured and its width is used; on the last tab any next width gives the same scroll target |
| `TabBarSync.Refresh` | ScrollableTabBar.js:68-90 | An update with zero tabs or progress outside [0, tabCount-1] changes nothing; any output change implies the range guard and readiness (tab[position], tab[position+1] unless last, strip, viewport) |
| `TabBarSync.RefreshWhenReady` | ScrollableTabBar.js:78-81 | When in range and ready, the outputs are exactly the underline and scroll target of floor(progress) and progress % 1, whatever they were before |
| `TabBarSync.LastTabRests` | ScrollableTabBar.js:128-131 | At progress tabCount-1 the underline is the last tab's box, and any leftover next-tab measurement does not move the scroll target |
| `TabBarSync.OutputsWaitForReadiness` | ScrollableTabBar.js:68-90 | Over any sequence of events after none of which the state is ready for its own progress value, the outputs stay exactly what they were (from a new component: 0) |
| `TabBarSync.RefreshIdempotent` | ScrollableTabBar.js:68-82 | Two updates with the same store and progress have the effect of one |
| `TabBarSync.ReadyMonotone` | ScrollableTabBar.js:85-90 | Readiness is kept by any store holding at least the same measurements |
| `TabBarSync.StepExtends` | ScrollableTabBar.js:156-176 | No event removes a measurement, and a tab-label change leaves the store unchanged |
| `TabBarSync.RunExtends` | ScrollableTabBar.js:156-176 | No sequence of events removes a measurement |
| `TabBarSync.RunKeepsConsistent` | ScrollableTabBar.js:156-158 | Every stored tab box keeps right == left + width over any sequence of events |
| `TabBarSync.LayoutUsesCurrentProgress` | ScrollableTabBar.js:156-176 | Every layout handler re-runs the update with the progress value already held, not 0, and keeps labels and progress |
| `TabBarSync.TabLayoutUpserts` | ScrollableTabBar.js:156-158 | measureTab writes only slot `page` with right = x + width; every other slot is unchanged |
| `TabBarSync.StepIdempotent` | ScrollableTabBar.js:156-176 | Delivering any event twice in a row has the effect of delivering it once (same store, width request and outputs) |
| `TabBarSync.StripWidthRequest` | ScrollableTabBar.js:163-169 | A strip layout sets the requested width to max(strip width, window width) |
| `TabBarSync.TabsChangedForgetsOnlyWidth` | ScrollableTabBar.js:237-241 | A label change forgets the requested width iff labels differ and the width is set and non-zero; measurements, outputs and readiness are kept |
| `TabBarSync.TabLayoutsCommute` | ScrollableTabBar.js:156-160 | Two tab measurements for different pages give the same store and outputs in either arrival order |
| `TabBarSync.LateArrival` | ScrollableTabBar.js:156-176 | After any history ending in a layout event or progress tick, a ready final store means the outputs equal the geometry computed from that store |
| `TabBar.ScrollableTabBar.constructor` | ScrollableTabBar.js:54-62 | A new component starts with no measurements, no width request and outputs at 0 |
| `TabBar.ScrollableTabBar.UpdateView` | ScrollableTabBar.js:68-82 | The outputs become Refresh of the old outputs; everything else is unchanged, and nothing changes when the range guard fails |
| `TabBar.ScrollableTabBar.UpdateTabPanel` | ScrollableTabBar.js:93-113 | The step-by-step newScrollX computation writes exactly ScrollTarget for the store's boxes |
| `TabBar.ScrollableTabBar.UpdateTabUnderline` | ScrollableTabBar.js:115-132 | The underline fields become the blended (or, on the last tab, resting) underline |
| `TabBar.ScrollableTabBar.OnScrollValue` | ScrollableTabBar.js:64-66 | A progress tick stores the value and updates, as Step does for the tick |
| `TabBar.ScrollableTabBar.MeasureTab` | ScrollableTabBar.js:156-160 | Upserts slot `page` with right = x + width, then updates with the current progress, as Step does |
| `TabBar.ScrollableTabBar.OnTabContainerLayout` | ScrollableTabBar.js:163-171 | Records the strip box, requests max(width, window width), then updates, as Step does |
| `TabBar.ScrollableTabBar.OnContainerLayout` | ScrollableTabBar.js:173-176 | Records the viewport box, then updates with the current progress, as Step does |
| `TabBar.ScrollableTabBar.ComponentDidUpdate` | ScrollableTabBar.js:237-242 | Resets only the width request, and only when the labels changed and the width is truthy |
| `TabBar.ScrollableTabBar.ReceiveTabs` | ScrollableTabBar.js:237-241 | New labels followed by componentDidUpdate have the effect Step gives a label change |
| `TabBarScenarios.HalfwayScenario` | ScrollableTabBar.js:93-132 | Three tabs measured in scrambled order, progress 0.5: underline (30, 70); scroll 0 on Android and -60 elsewhere |
| `TabBarScenarios.LastTabScenario` | ScrollableTabBar.js:128-131 | At progress 2.0 with three tabs the underline is the last tab's box (140, 100) |
| `TabBarScenarios.OverscrollScenario` | ScrollableTabBar.js:74-76 | Progress 2.25 or -0.25 leaves the outputs alone even when everything is measured |

## Left out

- Rendering: `render`, `renderTab`, `styles`, `propTypes` and `defaultProps` build element trees and styles with no stated behaviour. `DefaultTabBar.js` only renders buttons, and its underline is a library `interpolate` call.
- Library effects: `Animated.Value.setValue` and `ScrollView.scrollTo` are writes to output fields. The scroll's `y: 0` and `animated: false` arguments are not modelled.
- `setState`: applied at once. React's deferred, batched state updates are not modelled.
- Listener plumbing: the subscription in `componentDidMount` is modelled only by `OnScrollValue` firing on every tick. The model assumes the component is mounted. `scrollValue.__getValue()` is the `scrollValue` field.
- Platform inputs: `Platform.OS` and `Dimensions.get('window')` are constructor parameters.
- Numbers: IEEE double rounding, NaN and infinities are not modelled; layout numbers are reals.
- Tab list comparison: `JSON.stringify` is modelled as equality of `seq<string>`, which agrees for lists of string labels.
- The `_scrollView` reference is assumed set when an update scrolls. The source would throw if it were not.
