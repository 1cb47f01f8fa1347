/** The scrollable tab bar component as an object: the measurements are fields
    that the layout handlers overwrite, and the underline and scroll offset are
    output fields that an update writes (standing for `Animated.Value.setValue`
    and `ScrollView.scrollTo`). Each handler is proved to have exactly the
    effect TabBarSync.Step gives the matching event. */
module TabBar {
  import opened TabGeometry
  import opened TabBarSync

  class ScrollableTabBar {
    /** `Platform.OS === 'android'`. */
    const onAndroid: bool
    /** `Dimensions.get('window').width`, read once. */
    const windowWidth: real

    /** `props.tabs`: the tab labels. */
    var tabs: seq<string>
    /** The current value of `props.scrollValue` (`__getValue()`). */
    var scrollValue: real

    /** `_tabsMeasurements`, indexed by page. */
    var tabsMeasurements: map<nat, TabBox>
    /** `_tabContainerMeasurements`: the strip's layout box. */
    var tabContainerMeasurements: Option<LayoutBox>
    /** `_containerMeasurements`: the viewport's layout box. */
    var containerMeasurements: Option<LayoutBox>
    /** `state._containerWidth`: the strip width the component asks for. */
    var containerWidth: Option<real>

    /** The last values written to the underline's left and width. */
    var underlineLeft: real
    var underlineWidth: real
    /** The last offset the strip was scrolled to. */
    var scrollX: real

    function Env(): Platform
    {
      Platform(onAndroid, windowWidth)
    }

    function Measurements(): Store
      reads this
    {
      Store(tabsMeasurements, tabContainerMeasurements, containerMeasurements)
    }

    /** The component as a TabBarSync state. */
    ghost function Model(): State
      reads this
    {
      State(tabs, Measurements(), containerWidth, scrollValue,
            Outputs(Underline(underlineLeft, underlineWidth), scrollX))
    }

    constructor (tabs: seq<string>, scrollValue: real, onAndroid: bool, windowWidth: real)
      ensures this.onAndroid == onAndroid && this.windowWidth == windowWidth
      ensures Model() == Initial(tabs, scrollValue)
    {
      this.onAndroid := onAndroid;
      this.windowWidth := windowWidth;
      this.tabs := tabs;
      this.scrollValue := scrollValue;
      tabsMeasurements := map[];
      tabContainerMeasurements := None;
      containerMeasurements := None;
      containerWidth := None;
      underlineLeft, underlineWidth := 0.0, 0.0;
      scrollX := 0.0;
    }

    /** updateView: decode the progress value and, when it is in range and every
        measurement it needs is there, write both outputs; otherwise nothing
        changes. */
    method UpdateView(value: real)
      modifies this
      ensures Model() == old(Model()).(out := Refresh(onAndroid, old(Measurements()), value, |tabs|, old(Model().out)))
      ensures !InRange(value, |tabs|) ==> unchanged(this)
    {
      var position := PagePosition(value);
      var pageOffset := PageOffset(value);
      var tabCount := |tabs|;
      var lastTabPosition := tabCount - 1;

      if tabCount == 0 || value < 0.0 || value > lastTabPosition as real {
        return;
      }

      if Ready(Measurements(), position, position == lastTabPosition) {
        UpdateTabPanel(position, pageOffset);
        UpdateTabUnderline(position, pageOffset, tabCount);
      }
    }

    /** updateTabPanel: scroll the strip so that the blend of the current and
        next tab is centred, floored at 0 and, off Android, capped at the strip
        width minus the viewport width. */
    method UpdateTabPanel(position: nat, pageOffset: real)
      requires position in tabsMeasurements
      requires tabContainerMeasurements.Some? && containerMeasurements.Some?
      modifies this`scrollX
      ensures scrollX == ScrollFor(onAndroid, Measurements(), position, pageOffset)
    {
      var containerWidth := containerMeasurements.value.width;
      var tabWidth := tabsMeasurements[position].width;
      var nextTabWidth := if position + 1 in tabsMeasurements then tabsMeasurements[position + 1].width else 0.0;
      assert nextTabWidth == NextTabWidth(tabsMeasurements, position);
      var tabOffset := tabsMeasurements[position].left;
      var absolutePageOffset := pageOffset * tabWidth;
      var newScrollX := tabOffset + absolutePageOffset;

      newScrollX := newScrollX - (containerWidth - (1.0 - pageOffset) * tabWidth - pageOffset * nextTabWidth) / 2.0;
      ghost var centred := BlendCentre(tabOffset, tabWidth, nextTabWidth, pageOffset) - containerWidth / 2.0;
      assert newScrollX == centred;
      newScrollX := if newScrollX >= 0.0 then newScrollX else 0.0;
      assert newScrollX == Max(centred, 0.0);

      if onAndroid {
        scrollX := newScrollX;
      } else {
        var rightBoundScroll := tabContainerMeasurements.value.width - containerMeasurements.value.width;
        newScrollX := if newScrollX > rightBoundScroll then rightBoundScroll else newScrollX;
        scrollX := newScrollX;
      }
    }

    /** updateTabUnderline: blend both edges toward the next tab, or rest on
        the last tab. */
    method UpdateTabUnderline(position: nat, pageOffset: real, tabCount: nat)
      requires position in tabsMeasurements
      requires position < tabCount - 1 ==> position + 1 in tabsMeasurements
      modifies this`underlineLeft, this`underlineWidth
      ensures Underline(underlineLeft, underlineWidth) == UnderlineFor(tabsMeasurements, position, pageOffset, tabCount)
    {
      var lineLeft := tabsMeasurements[position].left;
      var lineRight := tabsMeasurements[position].right;

      if position < tabCount - 1 {
        var nextTabLeft := tabsMeasurements[position + 1].left;
        var nextTabRight := tabsMeasurements[position + 1].right;

        var newLineLeft := pageOffset * nextTabLeft + (1.0 - pageOffset) * lineLeft;
        var newLineRight := pageOffset * nextTabRight + (1.0 - pageOffset) * lineRight;

        underlineLeft := newLineLeft;
        underlineWidth := newLineRight - newLineLeft;
      } else {
        underlineLeft := lineLeft;
        underlineWidth := lineRight - lineLeft;
      }
    }

    /** The progress listener: the progress value moved to `value`. */
    method OnScrollValue(value: real)
      modifies this
      ensures Model() == Step(Env(), old(Model()), ScrollValue(value))
    {
      scrollValue := value;
      UpdateView(value);
    }

    /** measureTab: record the page's box and re-run the update with the
        current progress value. */
    method MeasureTab(page: nat, layout: LayoutBox)
      modifies this
      ensures Model() == Step(Env(), old(Model()), TabLayout(page, layout))
      ensures tabsMeasurements == old(tabsMeasurements)[page := TabBox(layout.x, layout.x + layout.width, layout.width, layout.height)]
    {
      tabsMeasurements := tabsMeasurements[page := TabMeasurement(layout)];
      UpdateView(scrollValue);
    }

    /** onTabContainerLayout: record the strip's box, ask for a strip at least
        as wide as the window, and re-run the update. */
    method OnTabContainerLayout(layout: LayoutBox)
      modifies this
      ensures Model() == Step(Env(), old(Model()), TabContainerLayout(layout))
    {
      tabContainerMeasurements := Some(layout);
      var width := layout.width;
      if width < windowWidth {
        width := windowWidth;
      }
      containerWidth := Some(width);
      UpdateView(scrollValue);
    }

    /** onContainerLayout: record the viewport's box and re-run the update. */
    method OnContainerLayout(layout: LayoutBox)
      modifies this
      ensures Model() == Step(Env(), old(Model()), ContainerLayout(layout))
    {
      containerMeasurements := Some(layout);
      UpdateView(scrollValue);
    }

    /** componentDidUpdate: when the labels changed and a strip width is set
        (truthy: not 0), forget that width so that it is computed again. */
    method ComponentDidUpdate(prevTabs: seq<string>)
      modifies this`containerWidth
      ensures containerWidth == (if prevTabs != tabs && old(containerWidth).Some? && old(containerWidth).value != 0.0
                                 then None else old(containerWidth))
    {
      if prevTabs != tabs && containerWidth.Some? && containerWidth.value != 0.0 {
        containerWidth := None;
      }
    }

    /** New labels arrive as props; then componentDidUpdate runs. */
    method ReceiveTabs(newTabs: seq<string>)
      modifies this
      ensures Model() == Step(Env(), old(Model()), TabsChanged(newTabs))
    {
      var prevTabs := tabs;
      tabs := newTabs;
      ComponentDidUpdate(prevTabs);
    }
  }
}
