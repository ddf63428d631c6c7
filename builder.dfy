/** Building the chart series from raw per-language, per-quarter records:
    one series per distinct language of the top list, in order of first
    appearance, with colour, default visibility and its counts, padded to a
    common length; and the percentage variant that floors counts first. */
module Builder {
  import opened Series
  import opened Colors
  import opened Optional

  /** One raw observation: a language name and its count for one quarter.
      Records come grouped by quarter, oldest first. */
  datatype Record = Record(name: string, count: real)

  /** The names of `recs`, in order. */
  function Names(recs: seq<Record>): (r: seq<string>)
    ensures |r| == |recs|
    ensures forall j :: 0 <= j < |recs| ==> r[j] == recs[j].name
  {
    seq(|recs|, j requires 0 <= j < |recs| => recs[j].name)
  }

  /** Index of the first record named `n`. */
  function FirstIndex(recs: seq<Record>, n: string): (k: nat)
    requires n in Names(recs)
    ensures k < |recs| && recs[k].name == n
    ensures forall j :: 0 <= j < k ==> recs[j].name != n
  {
    if recs[0].name == n then 0
    else
      var k :| 0 <= k < |recs| && recs[k].name == n;
      assert recs[1..][k - 1].name == n;
      1 + FirstIndex(recs[1..], n)
  }

  lemma FirstIndexTail(recs: seq<Record>, n: string)
    requires n in Names(recs) && recs[0].name != n
    ensures n in Names(recs[1..])
    ensures FirstIndex(recs, n) == 1 + FirstIndex(recs[1..], n)
  {
    var k :| 0 <= k < |recs| && recs[k].name == n;
    assert recs[1..][k - 1].name == n;
  }

  /** Every record of `rs` is the first record of its name in `recs`. */
  predicate FirstRecords(rs: seq<Record>, recs: seq<Record>)
  {
    forall j :: 0 <= j < |rs| ==>
      rs[j].name in Names(recs) && rs[j] == recs[FirstIndex(recs, rs[j].name)]
  }

  /** The names of `rs` come in the order of their first occurrence in `recs`
      (which also makes them pairwise distinct). */
  predicate InFirstOccurrenceOrder(rs: seq<Record>, recs: seq<Record>)
    requires forall j :: 0 <= j < |rs| ==> rs[j].name in Names(recs)
  {
    forall i, j :: 0 <= i < j < |rs| ==> FirstIndex(recs, rs[i].name) < FirstIndex(recs, rs[j].name)
  }

  /** lodash `uniqBy("name")`: walks the records left to right, keeping a
      record when its name has not been seen and then marking it seen. */
  function UniqFrom(recs: seq<Record>, seen: set<string>): (r: seq<Record>)
    ensures |r| <= |recs|
  {
    if recs == [] then []
    else if recs[0].name in seen then UniqFrom(recs[1..], seen)
    else [recs[0]] + UniqFrom(recs[1..], seen + {recs[0].name})
  }

  /** Every kept record is the first record of its name, and no name in
      `seen` is kept. */
  lemma {:induction false} UniqFromFirst(recs: seq<Record>, seen: set<string>)
    ensures FirstRecords(UniqFrom(recs, seen), recs)
    ensures forall j :: 0 <= j < |UniqFrom(recs, seen)| ==> UniqFrom(recs, seen)[j].name !in seen
  {
    if recs != [] {
      var h := recs[0].name;
      var seen' := if h in seen then seen else seen + {h};
      var rest := UniqFrom(recs[1..], seen');
      UniqFromFirst(recs[1..], seen');
      var r := UniqFrom(recs, seen);
      assert r == if h in seen then rest else [recs[0]] + rest;
      forall j | 0 <= j < |rest|
        ensures rest[j].name in Names(recs) && rest[j] == recs[FirstIndex(recs, rest[j].name)]
      {
        FirstIndexTail(recs, rest[j].name);
      }
      if h !in seen {
        forall j | 0 <= j < |r|
          ensures r[j].name in Names(recs) && r[j] == recs[FirstIndex(recs, r[j].name)]
        {
          if j > 0 {
            assert r[j] == rest[j - 1];
          }
        }
      }
    }
  }

  /** Prepending a record whose name occurs first keeps the order. */
  lemma OrderedCons(x: Record, rest: seq<Record>, recs: seq<Record>)
    requires x.name in Names(recs)
    requires forall j :: 0 <= j < |rest| ==> rest[j].name in Names(recs)
    requires InFirstOccurrenceOrder(rest, recs)
    requires forall j :: 0 <= j < |rest| ==> FirstIndex(recs, x.name) < FirstIndex(recs, rest[j].name)
    ensures InFirstOccurrenceOrder([x] + rest, recs)
  {
    var r := [x] + rest;
    forall i, j | 0 <= i < j < |r|
      ensures FirstIndex(recs, r[i].name) < FirstIndex(recs, r[j].name)
    {
      assert r[j] == rest[j - 1];
      if i > 0 {
        assert r[i] == rest[i - 1];
      }
    }
  }

  /** Order with respect to the tail of `recs` is order with respect to
      `recs` for names other than that of its head. */
  lemma OrderedInTail(rs: seq<Record>, recs: seq<Record>)
    requires recs != []
    requires forall j :: 0 <= j < |rs| ==> rs[j].name in Names(recs[1..]) && rs[j].name != recs[0].name
    requires InFirstOccurrenceOrder(rs, recs[1..])
    ensures forall j :: 0 <= j < |rs| ==> rs[j].name in Names(recs)
    ensures forall j :: 0 <= j < |rs| ==> 0 < FirstIndex(recs, rs[j].name)
    ensures InFirstOccurrenceOrder(rs, recs)
  {
    forall j | 0 <= j < |rs|
      ensures rs[j].name in Names(recs)
      ensures FirstIndex(recs, rs[j].name) == 1 + FirstIndex(recs[1..], rs[j].name)
    {
      var k :| 0 <= k < |recs[1..]| && Names(recs[1..])[k] == rs[j].name;
      assert Names(recs)[k + 1] == rs[j].name;
      FirstIndexTail(recs, rs[j].name);
    }
  }

  /** The kept records come in the order of their names' first occurrence. */
  lemma {:induction false} UniqFromOrdered(recs: seq<Record>, seen: set<string>)
    ensures FirstRecords(UniqFrom(recs, seen), recs)
    ensures InFirstOccurrenceOrder(UniqFrom(recs, seen), recs)
  {
    UniqFromFirst(recs, seen);
    if recs != [] {
      var h := recs[0].name;
      var seen' := if h in seen then seen else seen + {h};
      var rest := UniqFrom(recs[1..], seen');
      UniqFromOrdered(recs[1..], seen');
      UniqFromFirst(recs[1..], seen');
      OrderedInTail(rest, recs);
      if h !in seen {
        assert UniqFrom(recs, seen) == [recs[0]] + rest;
        OrderedCons(recs[0], rest, recs);
      }
    }
  }

  /** Every name of `recs` not in `seen` is kept. */
  lemma {:induction false} UniqFromCovers(recs: seq<Record>, seen: set<string>)
    ensures forall n :: n in Names(recs) && n !in seen ==> n in Names(UniqFrom(recs, seen))
  {
    if recs != [] {
      var h := recs[0].name;
      var seen' := if h in seen then seen else seen + {h};
      var rest := UniqFrom(recs[1..], seen');
      UniqFromCovers(recs[1..], seen');
      var r := UniqFrom(recs, seen);
      assert r == if h in seen then rest else [recs[0]] + rest;
      forall n | n in Names(recs) && n !in seen
        ensures n in Names(r)
      {
        if n == h {
          assert Names(r)[0] == n;
        } else {
          FirstIndexTail(recs, n);
          var j :| 0 <= j < |rest| && Names(rest)[j] == n;
          if h in seen {
            assert Names(r)[j] == n;
          } else {
            assert Names(r)[j + 1] == n;
          }
        }
      }
    }
  }

  /** `uniqBy("name")`: the first record of every distinct name, in order. */
  function UniqByName(recs: seq<Record>): (r: seq<Record>)
  {
    UniqFrom(recs, {})
  }

  /** lodash `reject(o => !includes(o.name)(top50))`: the records whose name
      is in `top`, in order. */
  function KeepTop(us: seq<Record>, top: seq<string>): (r: seq<Record>)
    ensures |r| <= |us|
  {
    if us == [] then []
    else if us[0].name in top then [us[0]] + KeepTop(us[1..], top)
    else KeepTop(us[1..], top)
  }

  /** Filtering keeps only records of `us` whose name is in `top`. */
  lemma {:induction false} KeepTopMembers(us: seq<Record>, top: seq<string>)
    ensures forall j :: 0 <= j < |KeepTop(us, top)| ==>
      KeepTop(us, top)[j].name in top && KeepTop(us, top)[j] in us
  {
    if us != [] {
      KeepTopMembers(us[1..], top);
      var rest := KeepTop(us[1..], top);
      var r := KeepTop(us, top);
      forall j | 0 <= j < |r|
        ensures r[j].name in top && r[j] in us
      {
        if us[0].name in top && j == 0 {
        } else {
          var j' := if us[0].name in top then j - 1 else j;
          assert r[j] == rest[j'];
          var a :| 0 <= a < |us[1..]| && us[1..][a] == rest[j'];
          assert us[a + 1] == r[j];
        }
      }
    }
  }

  /** Filtering keeps every record of `us` whose name is in `top`. */
  lemma {:induction false} KeepTopCovers(us: seq<Record>, top: seq<string>)
    ensures forall j :: 0 <= j < |us| && us[j].name in top ==> us[j] in KeepTop(us, top)
  {
    if us != [] {
      KeepTopCovers(us[1..], top);
      forall j | 1 <= j < |us| && us[j].name in top
        ensures us[j] in KeepTop(us, top)
      {
        assert us[1..][j - 1] == us[j];
      }
    }
  }

  /** Dropping the head keeps first-record and first-occurrence order. */
  lemma OrderedTail(us: seq<Record>, recs: seq<Record>)
    requires us != [] && FirstRecords(us, recs) && InFirstOccurrenceOrder(us, recs)
    ensures FirstRecords(us[1..], recs) && InFirstOccurrenceOrder(us[1..], recs)
  {
    var tail := us[1..];
    forall j | 0 <= j < |tail|
      ensures tail[j].name in Names(recs) && tail[j] == recs[FirstIndex(recs, tail[j].name)]
    {
      assert tail[j] == us[j + 1];
    }
    forall i, j | 0 <= i < j < |tail|
      ensures FirstIndex(recs, tail[i].name) < FirstIndex(recs, tail[j].name)
    {
      assert tail[i] == us[i + 1] && tail[j] == us[j + 1];
    }
  }

  /** Prepending a first record keeps a list of first records. */
  lemma FirstRecordsCons(x: Record, rest: seq<Record>, recs: seq<Record>)
    requires x.name in Names(recs) && x == recs[FirstIndex(recs, x.name)]
    requires FirstRecords(rest, recs)
    ensures FirstRecords([x] + rest, recs)
  {
    var r := [x] + rest;
    forall j | 1 <= j < |r|
      ensures r[j].name in Names(recs) && r[j] == recs[FirstIndex(recs, r[j].name)]
    {
      assert r[j] == rest[j - 1];
    }
  }

  /** Filtering keeps first-record and first-occurrence order. */
  lemma {:induction false} KeepTopOrdered(us: seq<Record>, top: seq<string>, recs: seq<Record>)
    requires FirstRecords(us, recs) && InFirstOccurrenceOrder(us, recs)
    ensures FirstRecords(KeepTop(us, top), recs)
    ensures InFirstOccurrenceOrder(KeepTop(us, top), recs)
  {
    if us != [] {
      var tail := us[1..];
      OrderedTail(us, recs);
      KeepTopOrdered(tail, top, recs);
      var rest := KeepTop(tail, top);
      if us[0].name in top {
        assert KeepTop(us, top) == [us[0]] + rest;
        KeepTopMembers(tail, top);
        forall j | 0 <= j < |rest|
          ensures FirstIndex(recs, us[0].name) < FirstIndex(recs, rest[j].name)
        {
          var a :| 0 <= a < |tail| && tail[a] == rest[j];
          assert us[a + 1] == rest[j];
        }
        OrderedCons(us[0], rest, recs);
        FirstRecordsCons(us[0], rest, recs);
      } else {
        assert KeepTop(us, top) == rest;
      }
    }
  }

  /** lodash `map("count")(filter({name: n})(recs))`: the counts of every
      record named `n`, in input order. */
  function CountsOf(recs: seq<Record>, n: string): (r: seq<real>)
    ensures |r| <= |recs|
    ensures |r| > 0 ==> n in Names(recs)
  {
    if recs == [] then []
    else (if recs[0].name == n then [recs[0].count] else []) + CountsOf(recs[1..], n)
  }

  /** Grouping by name distributes over concatenation: records added later
      (newer quarters) only extend a language's counts at the end. */
  lemma {:induction false} CountsOfAppend(a: seq<Record>, b: seq<Record>, n: string)
    ensures CountsOf(a + b, n) == CountsOf(a, n) + CountsOf(b, n)
  {
    if a != [] {
      var head := if a[0].name == n then [a[0].count] else [];
      assert (a + b)[0] == a[0];
      assert (a + b)[1..] == a[1..] + b;
      CountsOfAppend(a[1..], b, n);
      calc {
        CountsOf(a + b, n);
        head + CountsOf(a[1..] + b, n);
        head + (CountsOf(a[1..], n) + CountsOf(b, n));
        (head + CountsOf(a[1..], n)) + CountsOf(b, n);
        CountsOf(a, n) + CountsOf(b, n);
      }
    } else {
      assert a + b == b;
    }
  }

  /** Every value of `CountsOf(recs, n)` is the count of a record named `n`,
      and every name that occurs has at least one value. */
  lemma {:induction false} CountsOfSpec(recs: seq<Record>, n: string)
    ensures n in Names(recs) ==> |CountsOf(recs, n)| > 0
    ensures forall c :: c in CountsOf(recs, n) ==>
      exists k :: 0 <= k < |recs| && recs[k].name == n && recs[k].count == c
  {
    if recs != [] {
      CountsOfSpec(recs[1..], n);
      if n in Names(recs) && recs[0].name != n {
        FirstIndexTail(recs, n);
      }
      forall c | c in CountsOf(recs, n)
        ensures exists k :: 0 <= k < |recs| && recs[k].name == n && recs[k].count == c
      {
        if !(recs[0].name == n && c == recs[0].count) {
          assert c in CountsOf(recs[1..], n);
          var k :| 0 <= k < |recs[1..]| && recs[1..][k].name == n && recs[1..][k].count == c;
          assert recs[k + 1] == recs[1..][k];
        }
      }
    }
  }

  /** `visible ? visible.includes(name) : i < 7`. */
  function IsVisible(visible: Option<seq<string>>, name: string, i: nat): (v: bool)
  {
    match visible
    case Some(v) => name in v
    case None => i < 7
  }

  /** The series before padding, one per retained record (the index `i` is
      the position among retained records). */
  function Build(kept: seq<Record>, recs: seq<Record>, visible: Option<seq<string>>,
                 palette: map<string, string>, rand: nat -> real): (r: seq<Series<real>>)
    requires IsDrawOracle(rand)
    ensures |r| == |kept|
  {
    seq(|kept|, i requires 0 <= i < |kept| =>
      Series(kept[i].name, ColorOf(palette, kept[i].name, rand(i)),
             IsVisible(visible, kept[i].name, i), CountsOf(recs, kept[i].name)))
  }

  /** `createSeries`. */
  function CreateSeries(recs: seq<Record>, top: seq<string>, visible: Option<seq<string>>,
                        palette: map<string, string>, rand: nat -> real): (r: seq<Series<real>>)
    requires IsDrawOracle(rand)
    ensures Aligned(r)
  {
    FillZeros(Build(KeepTop(UniqByName(recs), top), recs, visible, palette, rand))
  }

  /** The records that become series: the first of each name, if the name
      is in `top`. */
  function Retained(recs: seq<Record>, top: seq<string>): (r: seq<Record>)
  {
    KeepTop(UniqByName(recs), top)
  }

  /** The retained records are first records, named in `top`, in
      first-occurrence order, and include every name of `recs` in `top`. */
  lemma RetainedSpec(recs: seq<Record>, top: seq<string>)
    ensures var kept := Retained(recs, top);
      && FirstRecords(kept, recs)
      && InFirstOccurrenceOrder(kept, recs)
      && (forall j :: 0 <= j < |kept| ==> kept[j].name in top)
      && (forall n :: n in top && n in Names(recs) ==> n in Names(kept))
  {
    var us := UniqByName(recs);
    UniqFromOrdered(recs, {});
    KeepTopOrdered(us, top, recs);
    KeepTopMembers(us, top);
    RetainedCovers(recs, top);
  }

  /** Every name of `recs` that is in `top` is retained. */
  lemma RetainedCovers(recs: seq<Record>, top: seq<string>)
    ensures forall n :: n in top && n in Names(recs) ==> n in Names(Retained(recs, top))
  {
    var us := UniqByName(recs);
    UniqFromCovers(recs, {});
    var kept := KeepTop(us, top);
    KeepTopCovers(us, top);
    forall n | n in top && n in Names(recs)
      ensures n in Names(kept)
    {
      var j :| 0 <= j < |us| && Names(us)[j] == n;
      var i :| 0 <= i < |kept| && kept[i] == us[j];
      assert Names(kept)[i] == n;
    }
  }

  /** One series per retained record, in the same order. */
  lemma CreateSeriesFollowsRetained(recs: seq<Record>, top: seq<string>, visible: Option<seq<string>>,
                                    palette: map<string, string>, rand: nat -> real)
    requires IsDrawOracle(rand)
    ensures var r := CreateSeries(recs, top, visible, palette, rand);
      && |r| == |Retained(recs, top)|
      && forall j :: 0 <= j < |r| ==> r[j].name == Retained(recs, top)[j].name
  {
    var kept := Retained(recs, top);
    var b := Build(kept, recs, visible, palette, rand);
    forall j | 0 <= j < |b|
      ensures FillZeros(b)[j].name == kept[j].name
    {
      FillZerosAt(b, j);
    }
  }

  /** Every name of `recs` in `top` has a series. */
  lemma CreateSeriesCovers(recs: seq<Record>, top: seq<string>, visible: Option<seq<string>>,
                           palette: map<string, string>, rand: nat -> real)
    requires IsDrawOracle(rand)
    ensures var r := CreateSeries(recs, top, visible, palette, rand);
      forall n :: n in top && n in Names(recs) ==> exists j :: 0 <= j < |r| && r[j].name == n
  {
    var r := CreateSeries(recs, top, visible, palette, rand);
    forall n | n in top && n in Names(recs)
      ensures exists j :: 0 <= j < |r| && r[j].name == n
    {
      var j := CreateSeriesHas(recs, top, visible, palette, rand, n);
    }
  }

  /** The position of the series of a retained name. */
  lemma CreateSeriesHas(recs: seq<Record>, top: seq<string>, visible: Option<seq<string>>,
                        palette: map<string, string>, rand: nat -> real, n: string)
    returns (j: nat)
    requires IsDrawOracle(rand)
    requires n in top && n in Names(recs)
    ensures var r := CreateSeries(recs, top, visible, palette, rand);
      j < |r| && r[j].name == n
  {
    var kept := Retained(recs, top);
    RetainedCovers(recs, top);
    j :| 0 <= j < |kept| && Names(kept)[j] == n;
    CreateSeriesFollowsRetained(recs, top, visible, palette, rand);
  }

  /** Exactly one series per distinct record name that is in `top`, in the
      order of each name's first occurrence, with no duplicates. */
  lemma CreateSeriesNames(recs: seq<Record>, top: seq<string>, visible: Option<seq<string>>,
                          palette: map<string, string>, rand: nat -> real)
    requires IsDrawOracle(rand)
    ensures var r := CreateSeries(recs, top, visible, palette, rand);
      && (forall j :: 0 <= j < |r| ==> r[j].name in top && r[j].name in Names(recs))
      && (forall n :: n in top && n in Names(recs) ==> exists j :: 0 <= j < |r| && r[j].name == n)
      && (forall i, j :: 0 <= i < j < |r| ==> r[i].name != r[j].name)
      && (forall i, j :: 0 <= i < j < |r| ==>
            r[i].name in Names(recs) && r[j].name in Names(recs) &&
            FirstIndex(recs, r[i].name) < FirstIndex(recs, r[j].name))
  {
    var kept := Retained(recs, top);
    RetainedSpec(recs, top);
    CreateSeriesFollowsRetained(recs, top, visible, palette, rand);
    var r := CreateSeries(recs, top, visible, palette, rand);
    CreateSeriesCovers(recs, top, visible, palette, rand);
    forall i, j | 0 <= i < j < |r|
      ensures r[i].name in Names(recs) && r[j].name in Names(recs) &&
        FirstIndex(recs, r[i].name) < FirstIndex(recs, r[j].name)
    {
      assert FirstIndex(recs, kept[i].name) < FirstIndex(recs, kept[j].name);
    }
  }

  /** The data of series `j` ends with all counts of its name, in input
      order, and is zero before them. */
  lemma CreateSeriesDataAt(recs: seq<Record>, top: seq<string>, visible: Option<seq<string>>,
                           palette: map<string, string>, rand: nat -> real, j: nat)
    requires IsDrawOracle(rand)
    requires j < |CreateSeries(recs, top, visible, palette, rand)|
    ensures var r := CreateSeries(recs, top, visible, palette, rand);
      LeftPadded(r[j].data, CountsOf(recs, r[j].name))
  {
    var kept := Retained(recs, top);
    var b := Build(kept, recs, visible, palette, rand);
    assert b[j].name == kept[j].name && b[j].data == CountsOf(recs, kept[j].name);
    FillZerosAt(b, j);
  }

  /** Each series holds the counts of all records with its name, in input
      order, left-padded with zeros to the common length; that length is the
      largest number of records of any retained name. */
  lemma CreateSeriesData(recs: seq<Record>, top: seq<string>, visible: Option<seq<string>>,
                         palette: map<string, string>, rand: nat -> real)
    requires IsDrawOracle(rand)
    ensures var r := CreateSeries(recs, top, visible, palette, rand);
      && (forall j :: 0 <= j < |r| ==> LeftPadded(r[j].data, CountsOf(recs, r[j].name)))
      && (r != [] ==> exists j :: 0 <= j < |r| && |r[j].data| == |CountsOf(recs, r[j].name)|)
  {
    var r := CreateSeries(recs, top, visible, palette, rand);
    forall j | 0 <= j < |r|
      ensures LeftPadded(r[j].data, CountsOf(recs, r[j].name))
    {
      CreateSeriesDataAt(recs, top, visible, palette, rand, j);
    }
    CreateSeriesDataLongest(recs, top, visible, palette, rand);
  }

  /** Some series needs no padding. */
  lemma CreateSeriesDataLongest(recs: seq<Record>, top: seq<string>, visible: Option<seq<string>>,
                                palette: map<string, string>, rand: nat -> real)
    requires IsDrawOracle(rand)
    ensures var r := CreateSeries(recs, top, visible, palette, rand);
      r != [] ==> exists j :: 0 <= j < |r| && |r[j].data| == |CountsOf(recs, r[j].name)|
  {
    var kept := Retained(recs, top);
    var b := Build(kept, recs, visible, palette, rand);
    if b != [] {
      var j :| 0 <= j < |b| && |b[j].data| == MaxLen(b);
      assert b[j].name == kept[j].name && b[j].data == CountsOf(recs, kept[j].name);
      FillZerosAt(b, j);
    }
  }

  /** With a language filter, a series is visible exactly when its name is
      listed; without one, exactly the first seven series are visible. */
  lemma CreateSeriesVisibility(recs: seq<Record>, top: seq<string>, visible: Option<seq<string>>,
                               palette: map<string, string>, rand: nat -> real)
    requires IsDrawOracle(rand)
    ensures var r := CreateSeries(recs, top, visible, palette, rand);
      forall j :: 0 <= j < |r| ==>
        (visible.Some? ==> (r[j].visible <==> r[j].name in visible.value)) &&
        (visible.None? ==> (r[j].visible <==> j < 7))
  {
  }

  /** A known language gets its canonical colour; any other a '#'-prefixed
      fallback of one to six hexadecimal digits. */
  lemma CreateSeriesColors(recs: seq<Record>, top: seq<string>, visible: Option<seq<string>>,
                           palette: map<string, string>, rand: nat -> real)
    requires IsDrawOracle(rand)
    ensures var r := CreateSeries(recs, top, visible, palette, rand);
      forall j :: 0 <= j < |r| ==>
        (r[j].name in palette ==> r[j].color == palette[r[j].name]) &&
        (r[j].name !in palette ==>
           && 2 <= |r[j].color| <= 7 && r[j].color[0] == '#'
           && forall k :: 1 <= k < |r[j].color| ==> IsHexDigit(r[j].color[k]))
  {
  }

  /** `update("count")(Math.floor)` on every record. */
  function FloorCounts(recs: seq<Record>): (r: seq<Record>)
    ensures |r| == |recs|
    ensures forall k :: 0 <= k < |r| ==>
      r[k].name == recs[k].name && r[k].count == recs[k].count.Floor as real
  {
    seq(|recs|, k requires 0 <= k < |recs| => recs[k].(count := recs[k].count.Floor as real))
  }

  /** `createSeriesPercentage`: floor the counts, build the series, and
      always convert them to shares of the column totals. */
  function CreateSeriesPercentage(recs: seq<Record>, top: seq<string>, visible: Option<seq<string>>,
                                  palette: map<string, string>, rand: nat -> real): (r: seq<Series<Quotient>>)
    requires IsDrawOracle(rand)
    ensures var base := CreateSeries(FloorCounts(recs), top, visible, palette, rand);
      && |r| == |base|
      && forall j :: 0 <= j < |r| ==>
           r[j].name == base[j].name && r[j].color == base[j].color && r[j].visible == base[j].visible &&
           |r[j].data| == |base[j].data|
    ensures var base := CreateSeries(FloorCounts(recs), top, visible, palette, rand);
      forall j, i :: 0 <= j < |r| && 0 <= i < |r[j].data| ==>
        j < |base| && i < |base[j].data| && r[j].data[i] == Divide(base[j].data[i], ColumnTotal(base, i))
  {
    PercentageData(CreateSeries(FloorCounts(recs), top, visible, palette, rand))
  }

  /** The draws matter only for series whose language has no canonical
      colour: two oracles that agree on the draw of every such position build
      the same series. */
  lemma BuildSameDraws(kept: seq<Record>, recs: seq<Record>, visible: Option<seq<string>>,
                       palette: map<string, string>, rand: nat -> real, rand2: nat -> real)
    requires IsDrawOracle(rand) && IsDrawOracle(rand2)
    requires forall i :: 0 <= i < |kept| && kept[i].name !in palette ==> rand(i) == rand2(i)
    ensures Build(kept, recs, visible, palette, rand) == Build(kept, recs, visible, palette, rand2)
  {
    var b, b2 := Build(kept, recs, visible, palette, rand), Build(kept, recs, visible, palette, rand2);
    forall i | 0 <= i < |kept|
      ensures b[i] == b2[i]
    {
      if kept[i].name in palette {
        assert b[i].color == palette[kept[i].name] == b2[i].color;
      }
    }
  }

  /** The percentage series come out the same under a second oracle when
      every top-list language has a canonical colour, or when the second
      oracle repeats the first one's draws for every record position (there
      are never more series than records). Otherwise a retained language
      outside the palette may get a different colour. */
  lemma CreateSeriesPercentageSameDraws(recs: seq<Record>, top: seq<string>, visible: Option<seq<string>>,
                                        palette: map<string, string>, rand: nat -> real, rand2: nat -> real)
    requires IsDrawOracle(rand) && IsDrawOracle(rand2)
    ensures (forall n :: n in top ==> n in palette) || (forall i :: 0 <= i < |recs| ==> rand(i) == rand2(i)) ==>
      CreateSeriesPercentage(recs, top, visible, palette, rand)
        == CreateSeriesPercentage(recs, top, visible, palette, rand2)
  {
    if (forall n :: n in top ==> n in palette) || (forall i :: 0 <= i < |recs| ==> rand(i) == rand2(i)) {
      SameDraws(recs, top, visible, palette, rand, rand2);
    }
  }

  lemma SameDraws(recs: seq<Record>, top: seq<string>, visible: Option<seq<string>>,
                  palette: map<string, string>, rand: nat -> real, rand2: nat -> real)
    requires IsDrawOracle(rand) && IsDrawOracle(rand2)
    requires (forall n :: n in top ==> n in palette) || (forall i :: 0 <= i < |recs| ==> rand(i) == rand2(i))
    ensures CreateSeriesPercentage(recs, top, visible, palette, rand)
         == CreateSeriesPercentage(recs, top, visible, palette, rand2)
  {
    var floored := FloorCounts(recs);
    var kept := KeepTop(UniqByName(floored), top);
    KeepTopMembers(UniqByName(floored), top);
    assert |kept| <= |recs|;
    BuildSameDraws(kept, floored, visible, palette, rand, rand2);
  }

  /** A percentage series whose language has no canonical colour takes the
      random colour of its own position's draw. */
  lemma CreateSeriesPercentageFallback(recs: seq<Record>, top: seq<string>, visible: Option<seq<string>>,
                                       palette: map<string, string>, rand: nat -> real, j: nat)
    requires IsDrawOracle(rand)
    requires j < |CreateSeriesPercentage(recs, top, visible, palette, rand)|
    ensures var r := CreateSeriesPercentage(recs, top, visible, palette, rand);
      r[j].name !in palette ==> r[j].color == RandomColor(rand(j))
  {
    var floored := FloorCounts(recs);
    var b := Build(KeepTop(UniqByName(floored), top), floored, visible, palette, rand);
    assert CreateSeries(floored, top, visible, palette, rand)[j] == FillZeros(b)[j];
  }

  /** Series built from non-negative counts hold non-negative values. */
  lemma BuildNonNegative(kept: seq<Record>, recs: seq<Record>, visible: Option<seq<string>>,
                         palette: map<string, string>, rand: nat -> real)
    requires IsDrawOracle(rand)
    requires forall k :: 0 <= k < |recs| ==> recs[k].count >= 0.0
    ensures NonNegative(Build(kept, recs, visible, palette, rand))
  {
    var b := Build(kept, recs, visible, palette, rand);
    forall s, i | 0 <= s < |b| && 0 <= i < |b[s].data|
      ensures b[s].data[i] >= 0.0
    {
      var c := CountsOf(recs, kept[s].name);
      assert b[s].data == c;
      CountsOfSpec(recs, kept[s].name);
      assert c[i] in c;
    }
  }

  /** Non-negative raw counts stay non-negative through flooring and padding. */
  lemma CreateSeriesNonNegative(recs: seq<Record>, top: seq<string>, visible: Option<seq<string>>,
                                palette: map<string, string>, rand: nat -> real)
    requires IsDrawOracle(rand)
    requires forall k :: 0 <= k < |recs| ==> recs[k].count >= 0.0
    ensures NonNegative(CreateSeries(FloorCounts(recs), top, visible, palette, rand))
  {
    var fr := FloorCounts(recs);
    assert forall k :: 0 <= k < |fr| ==> fr[k].count >= 0.0;
    var kept := Retained(fr, top);
    BuildNonNegative(kept, fr, visible, palette, rand);
    FillZerosNonNegative(Build(kept, fr, visible, palette, rand));
  }

  /** For non-negative counts: at every time index with a positive total the
      shares are finite and sum to 1; where the total is 0 every share is NaN. */
  lemma CreateSeriesPercentageColumns(recs: seq<Record>, top: seq<string>, visible: Option<seq<string>>,
                                      palette: map<string, string>, rand: nat -> real, i: nat)
    requires IsDrawOracle(rand)
    requires forall k :: 0 <= k < |recs| ==> recs[k].count >= 0.0
    ensures var base := CreateSeries(FloorCounts(recs), top, visible, palette, rand);
      var r := CreateSeriesPercentage(recs, top, visible, palette, rand);
      i < Width(base) ==>
        (ColumnTotal(base, i) > 0.0 ==> ShareSum(r, i) == 1.0) &&
        (ColumnTotal(base, i) == 0.0 ==> forall s :: 0 <= s < |r| ==> r[s].data[i] == NaN)
  {
    var base := CreateSeries(FloorCounts(recs), top, visible, palette, rand);
    if i < Width(base) {
      CreateSeriesNonNegative(recs, top, visible, palette, rand);
      ColumnTotalBounds(base, i);
      if ColumnTotal(base, i) > 0.0 {
        PercentageColumnSumsToOne(base, i);
      } else {
        PercentageZeroColumnIsNaN(base, i);
      }
    }
  }

  /** The records of the worked example below. */
  function ExampleRecords(): (r: seq<Record>)
    ensures |r| == 3
  {
    [Record("Go", 10.0), Record("Go", 20.0), Record("Rust", 5.0)]
  }

  lemma ExampleRetained()
    ensures Retained(ExampleRecords(), ["Go", "Rust"]) == [Record("Go", 10.0), Record("Rust", 5.0)]
  {
    var recs := ExampleRecords();
    assert recs[1..] == [Record("Go", 20.0), Record("Rust", 5.0)];
    assert recs[1..][1..] == [Record("Rust", 5.0)];
    assert "Rust" !in {"Go"};
    assert UniqFrom([Record("Rust", 5.0)], {"Go"}) == [Record("Rust", 5.0)];
    assert UniqFrom(recs[1..], {"Go"}) == [Record("Rust", 5.0)];
    var none: set<string> := {};
    assert none + {recs[0].name} == {"Go"};
    assert UniqByName(recs) == [Record("Go", 10.0), Record("Rust", 5.0)];
    var us := UniqByName(recs);
    assert us[1..] == [Record("Rust", 5.0)];
  }

  lemma ExampleCounts()
    ensures CountsOf(ExampleRecords(), "Go") == [10.0, 20.0]
    ensures CountsOf(ExampleRecords(), "Rust") == [5.0]
  {
    var recs := ExampleRecords();
    assert recs[1..] == [Record("Go", 20.0), Record("Rust", 5.0)];
    assert recs[1..][1..] == [Record("Rust", 5.0)];
    assert recs[1..][1..][1..] == [];
  }

  lemma ExampleBuild(palette: map<string, string>, rand: nat -> real)
    requires IsDrawOracle(rand)
    ensures var b := Build(Retained(ExampleRecords(), ["Go", "Rust"]), ExampleRecords(), None, palette, rand);
      && |b| == 2 && b[0].name == "Go" && b[1].name == "Rust" && b[0].visible && b[1].visible
      && b[0].data == [10.0, 20.0] && b[1].data == [5.0]
  {
    ExampleRetained();
    ExampleCounts();
  }

  /** Padding a two-series input with the example's counts. */
  lemma ExamplePadding(b: seq<Series<real>>)
    requires |b| == 2 && b[0].data == [10.0, 20.0] && b[1].data == [5.0]
    ensures |FillZeros(b)| == 2
    ensures forall j :: 0 <= j < 2 ==>
      FillZeros(b)[j].name == b[j].name && FillZeros(b)[j].visible == b[j].visible
    ensures FillZeros(b)[0].data == [10.0, 20.0] && FillZeros(b)[1].data == [0.0, 5.0]
  {
    assert b[1..][1..] == [] && b[1..][0] == b[1];
    assert MaxLen(b[1..]) == 1;
    assert MaxLen(b) == 2;
    var f := FillZeros(b);
    assert Zeros(0) == [] && Zeros(1) == [0.0];
    assert f[0].data == Pad(b[0].data, 2) == Zeros(0) + [10.0, 20.0];
    assert f[1].data == Pad(b[1].data, 2) == Zeros(1) + [5.0];
  }

  lemma ExampleSeries(palette: map<string, string>, rand: nat -> real)
    requires IsDrawOracle(rand)
    ensures var f := CreateSeries(ExampleRecords(), ["Go", "Rust"], None, palette, rand);
      && |f| == 2 && f[0].name == "Go" && f[1].name == "Rust" && f[0].visible && f[1].visible
      && f[0].data == [10.0, 20.0] && f[1].data == [0.0, 5.0]
  {
    ExampleBuild(palette, rand);
    ExamplePadding(Build(Retained(ExampleRecords(), ["Go", "Rust"]), ExampleRecords(), None, palette, rand));
  }

  /** Shares of a two-series input with the example's padded counts. */
  lemma ExampleShares(f: seq<Series<real>>)
    requires |f| == 2 && f[0].data == [10.0, 20.0] && f[1].data == [0.0, 5.0]
    ensures Aligned(f)
    ensures PercentageData(f)[0].data == [Finite(1.0), Finite(0.8)]
    ensures PercentageData(f)[1].data == [Finite(0.0), Finite(0.2)]
  {
    var tail := f[1..];
    assert tail[1..] == [] && tail[0] == f[1];
    assert ColumnTotal(tail[1..], 0) == 0.0 && ColumnTotal(tail[1..], 1) == 0.0;
    assert ColumnTotal(tail, 0) == tail[0].data[0] + ColumnTotal(tail[1..], 0) == 0.0;
    assert ColumnTotal(tail, 1) == tail[0].data[1] + ColumnTotal(tail[1..], 1) == 5.0;
    assert ColumnTotal(f, 0) == f[0].data[0] + ColumnTotal(tail, 0) == 10.0;
    assert ColumnTotal(f, 1) == f[0].data[1] + ColumnTotal(tail, 1) == 25.0;
    var r := PercentageData(f);
    assert r[0].data[0] == Divide(10.0, 10.0) && r[0].data[1] == Divide(20.0, 25.0);
    assert r[1].data[0] == Divide(0.0, 10.0) && r[1].data[1] == Divide(5.0, 25.0);
  }

  /** Two Go records (10 then 20) and one Rust record (5), both names in the
      top list: Rust is padded to [0, 5], and the shares are Go 1 and 0.8,
      Rust 0 and 0.2. */
  lemma EndToEndExample(palette: map<string, string>, rand: nat -> real)
    requires IsDrawOracle(rand)
    ensures var r := CreateSeriesPercentage(ExampleRecords(), ["Go", "Rust"], None, palette, rand);
      && |r| == 2 && r[0].name == "Go" && r[1].name == "Rust"
      && r[0].visible && r[1].visible
      && r[0].data == [Finite(1.0), Finite(0.8)]
      && r[1].data == [Finite(0.0), Finite(0.2)]
  {
    var recs := ExampleRecords();
    assert FloorCounts(recs) == recs;
    var f := CreateSeries(recs, ["Go", "Rust"], None, palette, rand);
    ExampleSeries(palette, rand);
    assert |f| == 2 && f[0].data == [10.0, 20.0] && f[1].data == [0.0, 5.0];
    ExampleShares(f);
    var r := CreateSeriesPercentage(recs, ["Go", "Rust"], None, palette, rand);
    assert r == PercentageData(f);
  }
}
