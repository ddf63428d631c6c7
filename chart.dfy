/** The language chart component: its chart configuration (React state), the
    per-render memo of the last data length, top list and language filter,
    and the effect that rebuilds the configuration when the ranking changes. */
module Chart {
  import opened Optional
  import opened Series
  import opened Colors
  import opened Categories
  import opened Builder
  import opened TopList

  /** The y-axis title object. */
  datatype AxisTitle = AxisTitle(text: string, options: map<string, string>)

  /** The y-axis: its title and the other options it carries over. */
  datatype YAxis = YAxis(title: AxisTitle, options: map<string, string>)

  /** The x-axis object the component writes. */
  datatype XAxis = XAxis(tickLength: int, categories: seq<Label>, options: map<string, string>)

  /** A chart configuration: the options the component does not touch, the
      y-axis, the series, and the x-axis (absent in a store configuration
      that has none). */
  datatype Config = Config(options: map<string, string>, yAxis: YAxis,
                           series: seq<Series<Quotient>>, xAxis: Option<XAxis>)

  /** The configuration `constructChart` builds from the current one: the
      y-axis keeps its other options and gets a fresh title object holding
      only the text; the series are the percentage series; the x-axis is
      replaced by one with tick length 0 and the quarter labels. */
  function NewConfig(state: Config, title: string, recs: seq<Record>, top: seq<string>,
                     visible: Option<seq<string>>, palette: map<string, string>,
                     rand: nat -> real): (c: Config)
    requires IsDrawOracle(rand)
  {
    state.(yAxis := state.yAxis.(title := AxisTitle(title, map[])),
           series := CreateSeriesPercentage(recs, top, visible, palette, rand),
           xAxis := Some(XAxis(0, Categories.Categories(), map[])))
  }

  /** Only the title, the series and the x-axis depend on the inputs; every
      other option of the previous configuration is kept, and the result
      does not depend on the previous title, series or x-axis. */
  lemma NewConfigFields(state: Config, other: Config, title: string, recs: seq<Record>,
                        top: seq<string>, visible: Option<seq<string>>,
                        palette: map<string, string>, rand: nat -> real)
    requires IsDrawOracle(rand)
    requires other.options == state.options && other.yAxis.options == state.yAxis.options
    ensures var c := NewConfig(state, title, recs, top, visible, palette, rand);
      && c.options == state.options
      && c.yAxis.options == state.yAxis.options
      && c.yAxis.title.text == title && c.yAxis.title.options == map[]
      && c.xAxis.Some? && c.xAxis.value.tickLength == 0 && c.xAxis.value.categories == Categories.Categories()
      && c == NewConfig(other, title, recs, top, visible, palette, rand)
  {
  }

  /** Building again from a built configuration with the same inputs gives the
      same configuration, so the second state update commits nothing. */
  lemma NewConfigIdempotent(state: Config, title: string, recs: seq<Record>, top: seq<string>,
                            visible: Option<seq<string>>, palette: map<string, string>,
                            rand: nat -> real)
    requires IsDrawOracle(rand)
    ensures var c := NewConfig(state, title, recs, top, visible, palette, rand);
      NewConfig(c, title, recs, top, visible, palette, rand) == c
  {
    var c := NewConfig(state, title, recs, top, visible, palette, rand);
    NewConfigFields(c, state, title, recs, top, visible, palette, rand);
  }

  /** Rebuilding a built configuration with other draws changes it exactly
      when the percentage series change. */
  lemma NewConfigRedraw(state: Config, title: string, recs: seq<Record>, top: seq<string>,
                        visible: Option<seq<string>>, palette: map<string, string>,
                        rand: nat -> real, rand2: nat -> real)
    requires IsDrawOracle(rand) && IsDrawOracle(rand2)
    ensures var c := NewConfig(state, title, recs, top, visible, palette, rand);
      NewConfig(c, title, recs, top, visible, palette, rand2) == c <==>
        CreateSeriesPercentage(recs, top, visible, palette, rand2)
          == CreateSeriesPercentage(recs, top, visible, palette, rand)
  {
    var c := NewConfig(state, title, recs, top, visible, palette, rand);
    NewConfigFields(c, state, title, recs, top, visible, palette, rand2);
  }

  /** The early-return guard of `constructChart`: the top list is empty and
      either the data length or the top list equals the remembered one. */
  predicate ShouldSkip(prevLength: int, prevTop: seq<string>, length: int, top: seq<string>)
  {
    (length == prevLength || prevTop == top) && |top| == 0
  }

  /** A non-empty top list always rebuilds; with the memo as every render
      starts it (length 0, empty top list), the guard skips exactly when the
      top list is empty, whatever the data. */
  lemma ShouldSkipCases(prevLength: int, prevTop: seq<string>, length: int, top: seq<string>)
    ensures |top| > 0 ==> !ShouldSkip(prevLength, prevTop, length, top)
    ensures ShouldSkip(0, [], length, top) <==> top == []
  {
  }

  /** The component instance: the chart configuration held in React state and
      the variables a render declares and the effect assigns. */
  class LangChart {
    var state: Config
    var dataLength: int
    var top50: seq<string>
    var visible: Option<seq<string>>

    /** The memo as a render initialises it. */
    predicate FreshMemo()
      reads this
    {
      dataLength == 0 && top50 == [] && visible.None?
    }

    /** Mounting: the state starts as the store's configuration. */
    constructor (initial: Config)
      ensures state == initial && FreshMemo()
    {
      state := initial;
      dataLength := 0;
      top50 := [];
      visible := None;
    }

    /** A render declares the memo variables afresh; the state survives. */
    method Render()
      modifies this
      ensures state == old(state) && FreshMemo()
    {
      dataLength := 0;
      top50 := [];
      visible := None;
    }

    /** `updateState`: commit `newState` unless it deep-equals the current
      state. Either way the state afterwards equals `newState`. */
    method UpdateState(newState: Config) returns (committed: bool)
      modifies this
      ensures committed <==> old(state) != newState
      ensures state == newState
      ensures dataLength == old(dataLength) && top50 == old(top50) && visible == old(visible)
    {
      committed := state != newState;
      if committed {
        state := newState;
      }
    }

    /** `constructChart`: return early when the guard holds; otherwise
      remember the top list and data length and update the state with the
      new configuration. */
    method ConstructChart(recs: seq<Record>, title: string, top: seq<string>,
                          palette: map<string, string>, rand: nat -> real)
      returns (rebuilt: bool, committed: bool)
      requires IsDrawOracle(rand)
      modifies this
      ensures rebuilt <==> !ShouldSkip(old(dataLength), old(top50), |recs|, top)
      ensures !rebuilt ==>
        !committed && state == old(state) && dataLength == old(dataLength) && top50 == old(top50)
      ensures rebuilt ==>
        && dataLength == |recs| && top50 == top
        && state == NewConfig(old(state), title, recs, top, old(visible), palette, rand)
        && (committed <==> state != old(state))
      ensures visible == old(visible)
    {
      if ShouldSkip(dataLength, top50, |recs|, top) {
        return false, false;
      }
      top50 := top;
      dataLength := |recs|;
      var newState := NewConfig(state, title, recs, top, visible, palette, rand);
      rebuilt := true;
      committed := UpdateState(newState);
    }

    /** The effect: read the language filter from the route, take the sorted
      names of the first 50 ranking rows, and construct the chart. Run after
      a render, it rebuilds exactly when there is at least one ranking row. */
    method Effect(lang: Option<string>, recs: seq<Record>, title: string, rowNames: seq<string>,
                  palette: map<string, string>, rand: nat -> real)
      returns (rebuilt: bool, committed: bool)
      requires IsDrawOracle(rand)
      modifies this
      ensures visible == VisibleFilter(lang)
      ensures rebuilt <==> !ShouldSkip(old(dataLength), old(top50), |recs|, TopNames(rowNames))
      ensures old(FreshMemo()) ==> (rebuilt <==> rowNames != [])
      ensures !rebuilt ==>
        !committed && state == old(state) && dataLength == old(dataLength) && top50 == old(top50)
      ensures rebuilt ==>
        && top50 == TopNames(rowNames) && dataLength == |recs|
        && state == NewConfig(old(state), title, recs, TopNames(rowNames), VisibleFilter(lang), palette, rand)
        && (committed <==> state != old(state))
    {
      visible := VisibleFilter(lang);
      var top := TopNames(rowNames);
      TopNamesSpec(rowNames);
      ShouldSkipCases(dataLength, top50, |recs|, top);
      rebuilt, committed := ConstructChart(recs, title, top, palette, rand);
    }
  }

  /** Two runs of the effect, each after a render, with equal inputs (in the
      component, a dependency changed by reference but not by value) and
      each with its own `Math.random()` draws: both rebuild exactly when
      there are ranking rows, and the second commits exactly when its
      percentage series differ from the first one's. That cannot happen when
      every top-list language has a canonical colour or the draws repeat. */
  method RenderTwice(initial: Config, lang: Option<string>, recs: seq<Record>, title: string,
                     rowNames: seq<string>, palette: map<string, string>,
                     rand: nat -> real, rand2: nat -> real)
    returns (firstRebuilt: bool, secondRebuilt: bool, secondCommitted: bool)
    requires IsDrawOracle(rand) && IsDrawOracle(rand2)
    ensures firstRebuilt == secondRebuilt == (rowNames != [])
    ensures secondCommitted <==>
      && secondRebuilt
      && CreateSeriesPercentage(recs, TopNames(rowNames), VisibleFilter(lang), palette, rand2)
         != CreateSeriesPercentage(recs, TopNames(rowNames), VisibleFilter(lang), palette, rand)
    ensures (forall n :: n in TopNames(rowNames) ==> n in palette) ==> !secondCommitted
    ensures (forall i :: 0 <= i < |recs| ==> rand2(i) == rand(i)) ==> !secondCommitted
  {
    var chart := new LangChart(initial);
    chart.Render();
    var firstCommitted;
    firstRebuilt, firstCommitted := chart.Effect(lang, recs, title, rowNames, palette, rand);
    var first := chart.state;
    chart.Render();
    secondRebuilt, secondCommitted := chart.Effect(lang, recs, title, rowNames, palette, rand2);
    var top, visible := TopNames(rowNames), VisibleFilter(lang);
    if secondRebuilt {
      NewConfigRedraw(initial, title, recs, top, visible, palette, rand, rand2);
    }
    CreateSeriesPercentageSameDraws(recs, top, visible, palette, rand2, rand);
  }

  /** Fresh draws do make the second cycle commit: with one "Go" record and
      no canonical colours, a first draw of 0 colours the series "#0" and a
      second draw of 0.5 a six-digit colour, so the rebuilt configuration
      differs from the committed one. */
  lemma FreshDrawsRecolour(state: Config)
    ensures var recs := [Record("Go", 1.0)];
      var c := NewConfig(state, "", recs, ["Go"], None, map[], _ => 0.0);
      NewConfig(c, "", recs, ["Go"], None, map[], _ => 0.5) != c
  {
    var recs := [Record("Go", 1.0)];
    var none: set<string> := {};
    var zero, half: nat -> real := _ => 0.0, _ => 0.5;
    assert FloorCounts(recs) == recs;
    assert UniqFrom(recs, none) == [recs[0]] + UniqFrom([], {"Go"});
    assert KeepTop(recs, ["Go"]) == [recs[0]] + KeepTop([], ["Go"]);
    var s0 := CreateSeriesPercentage(recs, ["Go"], None, map[], zero);
    var s5 := CreateSeriesPercentage(recs, ["Go"], None, map[], half);
    CreateSeriesPercentageFallback(recs, ["Go"], None, map[], zero, 0);
    CreateSeriesPercentageFallback(recs, ["Go"], None, map[], half, 0);
    RandomColorShape(0.5);
    assert s0[0].color == "#0" != s5[0].color;
  }
}
