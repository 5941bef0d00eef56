/** The arithmetic behind the results view: which snapshot entries are vote
    counts, their total, each option's share of it, and whether the shares
    are drawn as bars or as rings. The markup itself is not modelled. */
module PollResults {
  import opened Wrappers

  /** The five options the renderer has a label, emoji and colour for. */
  datatype Choice = StrongBuy | Buy | Hold | Sell | StrongSell

  /** The snapshot key under which the server reports an option's count. */
  function ChoiceKey(c: Choice): string
  {
    match c
    case StrongBuy => "strongBuy"
    case Buy => "buy"
    case Hold => "hold"
    case Sell => "sell"
    case StrongSell => "strongSell"
  }

  /** Looks a snapshot key up in the renderer's option table. `None` stands
      for the missing table entry, whose fields the renderer then fails to
      read. */
  function ParseChoice(key: string): (r: Option<Choice>)
    ensures r.Some? ==> ChoiceKey(r.value) == key
    ensures r.None? ==> forall c: Choice :: ChoiceKey(c) != key
  {
    if key == "strongBuy" then Some(StrongBuy)
    else if key == "buy" then Some(Buy)
    else if key == "hold" then Some(Hold)
    else if key == "sell" then Some(Sell)
    else if key == "strongSell" then Some(StrongSell)
    else None
  }

  lemma {:induction false} ParseChoiceKey(c: Choice)
    ensures ParseChoice(ChoiceKey(c)) == Some(c)
  {
  }

  /** Snapshot keys that carry metadata rather than a vote count. */
  predicate IsMetaKey(key: string)
  {
    key == "lastUpdate" || key == "totalVotes"
  }

  /** One key/value pair of a results snapshot, in enumeration order. */
  datatype Entry = Entry(key: string, count: nat)

  type Snapshot = seq<Entry>

  /** The snapshot entries that are vote counts, in snapshot order. */
  function VoteData(s: Snapshot): (r: seq<Entry>)
    ensures |r| <= |s|
    ensures forall e :: e in r <==> e in s && !IsMetaKey(e.key)
  {
    if s == [] then []
    else if IsMetaKey(s[0].key) then VoteData(s[1..])
    else [s[0]] + VoteData(s[1..])
  }

  /** Filtering commutes with concatenation, so the vote entries keep the
      relative order they have in the snapshot. */
  lemma {:induction false} VoteDataConcat(a: Snapshot, b: Snapshot)
    ensures VoteData(a + b) == VoteData(a) + VoteData(b)
  {
    if a == [] {
      assert a + b == b;
    } else {
      assert (a + b)[0] == a[0];
      assert (a + b)[1..] == a[1..] + b;
      VoteDataConcat(a[1..], b);
    }
  }

  /** A snapshot without metadata keys is all vote data. */
  lemma {:induction false} VoteDataWithoutMetadata(s: Snapshot)
    requires forall i :: 0 <= i < |s| ==> !IsMetaKey(s[i].key)
    ensures VoteData(s) == s
  {
    if s != [] {
      VoteDataWithoutMetadata(s[1..]);
    }
  }

  /** Sum of the counts of some entries. */
  function Sum(es: seq<Entry>): nat
  {
    if es == [] then 0 else es[0].count + Sum(es[1..])
  }

  lemma {:induction false} SumAppend(es: seq<Entry>, e: Entry)
    ensures Sum(es + [e]) == Sum(es) + e.count
  {
    if es != [] {
      assert (es + [e])[1..] == es[1..] + [e];
      SumAppend(es[1..], e);
    }
  }

  /** Every single count is at most the sum. */
  lemma {:induction false} CountAtMostSum(es: seq<Entry>, i: int)
    requires 0 <= i < |es|
    ensures es[i].count <= Sum(es)
  {
    if i > 0 {
      CountAtMostSum(es[1..], i - 1);
    }
  }

  /** The total as an independent definition: the counts of every snapshot
      entry, with the two metadata entries contributing nothing. */
  function CountedTotal(s: Snapshot): nat
  {
    if s == [] then 0
    else (if IsMetaKey(s[0].key) then 0 else s[0].count) + CountedTotal(s[1..])
  }

  lemma {:induction false} SumOfVoteData(s: Snapshot)
    ensures Sum(VoteData(s)) == CountedTotal(s)
  {
    if s != [] {
      SumOfVoteData(s[1..]);
      if !IsMetaKey(s[0].key) {
        var r := [s[0]] + VoteData(s[1..]);
        assert r[0] == s[0] && r[1..] == VoteData(s[1..]);
      }
    }
  }

  /** The total as the renderer accumulates it, left to right. */
  method TotalVotes(data: seq<Entry>) returns (total: nat)
    ensures total == Sum(data)
  {
    total := 0;
    var i := 0;
    while i < |data|
      invariant 0 <= i <= |data|
      invariant total == Sum(data[..i])
    {
      assert data[..i + 1] == data[..i] + [data[i]];
      SumAppend(data[..i], data[i]);
      total := total + data[i].count;
      i := i + 1;
    }
    assert data[..i] == data;
  }

  /** An option's share of the total, in percent, kept exact. With no votes
      at all the share is zero and nothing is divided. */
  function Percent(count: nat, total: nat): (p: real)
    ensures total == 0 ==> p == 0.0
    ensures total > 0 ==> p * (total as real) == (count as real) * 100.0
    ensures 0.0 <= p
    ensures count <= total ==> p <= 100.0
  {
    if total == 0 then 0.0 else (count as real) / (total as real) * 100.0
  }

  /** Widest viewport, in CSS pixels, that still gets the mobile layout. */
  const MobileMaxWidth: int := 767

  datatype Layout = Bar | Ring

  function LayoutFor(width: int): Layout
  {
    if width <= MobileMaxWidth then Bar else Ring
  }

  /** One rendered option: which option, its count and its share. */
  datatype Row = Row(choice: Choice, count: nat, percent: real)

  /** What the results view shows: one row per vote entry, the total, and
      the layout chosen for the rows. */
  datatype Tally = Tally(rows: seq<Row>, total: nat, layout: Layout)

  /** The row drawn for entry `e` when the votes total `total`. */
  predicate RowFits(row: Row, e: Entry, total: nat)
  {
    && ChoiceKey(row.choice) == e.key
    && row.count == e.count
    && row.percent == Percent(e.count, total)
  }

  /** The rows for the vote entries, or `None` when one of them names an
      option the renderer has no table entry for. */
  function RowsFor(data: seq<Entry>, total: nat): (r: Option<seq<Row>>)
    ensures r.Some? <==> forall i :: 0 <= i < |data| ==> ParseChoice(data[i].key).Some?
    ensures r.Some? ==> |r.value| == |data|
    ensures r.Some? ==> forall i :: 0 <= i < |data| ==> RowFits(r.value[i], data[i], total)
  {
    if data == [] then Some([])
    else
      match ParseChoice(data[0].key)
      case None => None
      case Some(c) =>
        match RowsFor(data[1..], total)
        case None => None
        case Some(rest) =>
          var rows := [Row(c, data[0].count, Percent(data[0].count, total))] + rest;
          assert forall i :: 1 <= i < |rows| ==> rows[i] == rest[i - 1];
          Some(rows)
  }

  /** The results view computed from a snapshot at a viewport width, or
      `None` when rendering fails on an unknown option. */
  function Render(s: Snapshot, width: int): (t: Option<Tally>)
    ensures t.Some? <==> forall e :: e in VoteData(s) ==> ParseChoice(e.key).Some?
    ensures t.Some? ==> t.value.total == CountedTotal(s)
    ensures t.Some? ==> (t.value.layout == Bar <==> width <= 767)
    ensures t.Some? ==> |t.value.rows| == |VoteData(s)|
    ensures t.Some? ==> forall i :: 0 <= i < |t.value.rows| ==> RowFits(t.value.rows[i], VoteData(s)[i], t.value.total)
    ensures t.Some? && t.value.total == 0 ==> forall i :: 0 <= i < |t.value.rows| ==> t.value.rows[i].percent == 0.0
  {
    var data := VoteData(s);
    var total := Sum(data);
    SumOfVoteData(s);
    match RowsFor(data, total)
    case None => None
    case Some(rows) => Some(Tally(rows, total, LayoutFor(width)))
  }

  /** Metadata keys never become rows: every row is one of the five options
      and comes from an entry of the snapshot. */
  lemma {:induction false} RowsAreOptions(s: Snapshot, width: int)
    ensures Render(s, width).Some? ==>
              forall i :: 0 <= i < |Render(s, width).value.rows| ==>
                !IsMetaKey(ChoiceKey(Render(s, width).value.rows[i].choice)) && VoteData(s)[i] in s
  {
  }

  /** Every share lies between 0 and 100 percent. */
  lemma {:induction false} PercentsBounded(s: Snapshot, width: int)
    ensures Render(s, width).Some? ==>
              forall i :: 0 <= i < |Render(s, width).value.rows| ==> 0.0 <= Render(s, width).value.rows[i].percent <= 100.0
  {
    if Render(s, width).Some? {
      var t := Render(s, width).value;
      SumOfVoteData(s);
      forall i | 0 <= i < |t.rows|
        ensures 0.0 <= t.rows[i].percent <= 100.0
      {
        CountAtMostSum(VoteData(s), i);
        assert RowFits(t.rows[i], VoteData(s)[i], t.total);
      }
    }
  }

  /** Sum of the shares of some rows. */
  function PercentSum(rows: seq<Row>): real
  {
    if rows == [] then 0.0 else rows[0].percent + PercentSum(rows[1..])
  }

  /** A row's share scaled back by the total gives a hundred times its count. */
  predicate ScaledShare(row: Row, e: Entry, t: real)
  {
    row.percent * t == (e.count as real) * 100.0
  }

  lemma {:induction false} PercentSumScaled(rows: seq<Row>, data: seq<Entry>, t: real)
    requires |rows| == |data|
    requires forall i :: 0 <= i < |data| ==> ScaledShare(rows[i], data[i], t)
    ensures PercentSum(rows) * t == (Sum(data) as real) * 100.0
  {
    if rows != [] {
      assert ScaledShare(rows[0], data[0], t);
      PercentSumScaled(rows[1..], data[1..], t);
      ScaleStep(rows[0].percent, PercentSum(rows[1..]), t, data[0].count as real, Sum(data[1..]) as real);
    }
  }

  lemma {:induction false} ScaleStep(p: real, rest: real, t: real, c: real, sum: real)
    requires p * t == c * 100.0
    requires rest * t == sum * 100.0
    ensures (p + rest) * t == (c + sum) * 100.0
  {
  }

  /** If `x` scaled by `n` is a hundred times `n` itself, `x` is 100. */
  lemma {:induction false} WholeIsHundred(x: real, sum: real, n: real)
    requires n > 0.0 && sum == n
    requires x * n == sum * 100.0
    ensures x == 100.0
  {
  }

  /** When anyone has voted, the shares add up to exactly 100 percent. */
  lemma {:induction false} PercentsSumToHundred(s: Snapshot, width: int)
    ensures Render(s, width).Some? && Render(s, width).value.total > 0 ==>
              PercentSum(Render(s, width).value.rows) == 100.0
  {
    if Render(s, width).Some? && Render(s, width).value.total > 0 {
      var t := Render(s, width).value;
      SumOfVoteData(s);
      RowsPercentSum(t.rows, VoteData(s), t.total);
    }
  }

  lemma {:induction false} RowsPercentSum(rows: seq<Row>, data: seq<Entry>, total: nat)
    requires total == Sum(data) > 0
    requires |rows| == |data|
    requires forall i :: 0 <= i < |rows| ==> RowFits(rows[i], data[i], total)
    ensures PercentSum(rows) == 100.0
  {
    var n := total as real;
    ScaledShares(rows, data, total);
    PercentSumScaled(rows, data, n);
    WholeIsHundred(PercentSum(rows), Sum(data) as real, n);
  }

  lemma {:induction false} ScaledShares(rows: seq<Row>, data: seq<Entry>, total: nat)
    requires total > 0
    requires |rows| == |data|
    requires forall i :: 0 <= i < |rows| ==> RowFits(rows[i], data[i], total)
    ensures forall i :: 0 <= i < |rows| ==> ScaledShare(rows[i], data[i], total as real)
  {
    forall i | 0 <= i < |rows|
      ensures ScaledShare(rows[i], data[i], total as real)
    {
      assert RowFits(rows[i], data[i], total);
    }
  }

  /** The values under the metadata keys never influence the results view. */
  lemma {:induction false} MetaValuesIgnored(s1: Snapshot, s2: Snapshot)
    requires |s1| == |s2|
    requires forall i :: 0 <= i < |s1| ==> s1[i].key == s2[i].key
    requires forall i :: 0 <= i < |s1| && !IsMetaKey(s1[i].key) ==> s1[i].count == s2[i].count
    ensures VoteData(s1) == VoteData(s2)
    ensures forall width :: Render(s1, width) == Render(s2, width)
  {
    if s1 != [] {
      MetaValuesIgnored(s1[1..], s2[1..]);
    }
  }

  /** Three votes for "strong buy" and one for "buy", between the two
      metadata entries: shares of 75, 25, 0, 0 and 0 percent out of 4, drawn
      as bars up to 767 pixels and as rings from 768. */
  lemma {:induction false} ExampleTally(width: int)
    ensures Render(ExampleSnapshot(), width)
              == Some(Tally([Row(StrongBuy, 3, 75.0), Row(Buy, 1, 25.0), Row(Hold, 0, 0.0),
                             Row(Sell, 0, 0.0), Row(StrongSell, 0, 0.0)], 4,
                            if width <= 767 then Bar else Ring))
  {
    var s, data := ExampleSnapshot(), ExampleCounts();
    assert VoteData(s) == data by { ExampleSnapshotVoteData(); }
    assert Sum(data) == 4 by { ExampleSum(); }
    assert RowsFor(data, 4) == Some(ExampleRows()) by { ExampleRowsFor(); }
  }

  lemma {:induction false} ExampleSum()
    ensures Sum(ExampleCounts()) == 4
  {
    var data := ExampleCounts();
    assert Sum(data[4..]) == 0;
    assert Sum(data[3..]) == 0;
    assert Sum(data[2..]) == 0;
    assert Sum(data[1..]) == 1;
  }

  function ExampleRows(): seq<Row>
  {
    [Row(StrongBuy, 3, 75.0), Row(Buy, 1, 25.0), Row(Hold, 0, 0.0), Row(Sell, 0, 0.0), Row(StrongSell, 0, 0.0)]
  }

  lemma {:induction false} ExampleRowsFor()
    ensures RowsFor(ExampleCounts(), 4) == Some(ExampleRows())
  {
    var data := ExampleCounts();
    ExampleCountsAreOptions();
    var rows := RowsFor(data, 4).value;
    assert Percent(3, 4) == 75.0 && Percent(1, 4) == 25.0 && Percent(0, 4) == 0.0;
    assert rows[0] == Row(StrongBuy, 3, 75.0) by { RowDetermined(rows[0], data[0], 4); }
    assert rows[1] == Row(Buy, 1, 25.0) by { RowDetermined(rows[1], data[1], 4); }
    assert rows[2] == Row(Hold, 0, 0.0) by { RowDetermined(rows[2], data[2], 4); }
    assert rows[3] == Row(Sell, 0, 0.0) by { RowDetermined(rows[3], data[3], 4); }
    assert rows[4] == Row(StrongSell, 0, 0.0) by { RowDetermined(rows[4], data[4], 4); }
    assert |rows| == 5;
    assert rows == ExampleRows();
  }

  /** A row is determined by its entry and the total. */
  lemma {:induction false} RowDetermined(row: Row, e: Entry, total: nat)
    requires RowFits(row, e, total)
    ensures ParseChoice(e.key) == Some(row.choice)
    ensures row == Row(ParseChoice(e.key).value, e.count, Percent(e.count, total))
  {
    ParseChoiceKey(row.choice);
  }

  function ExampleSnapshot(): Snapshot
  {
    [Entry("lastUpdate", 1700000000000)] + ExampleCounts() + [Entry("totalVotes", 4)]
  }

  lemma {:induction false} ExampleSnapshotVoteData()
    ensures VoteData(ExampleSnapshot()) == ExampleCounts()
  {
    var data := ExampleCounts();
    assert VoteData([Entry("lastUpdate", 1700000000000)]) == [];
    assert VoteData([Entry("totalVotes", 4)]) == [];
    ExampleCountsAreVoteData();
    VoteDataConcat([Entry("lastUpdate", 1700000000000)], data);
    VoteDataConcat([Entry("lastUpdate", 1700000000000)] + data, [Entry("totalVotes", 4)]);
  }

  /** The vote entries of the example snapshot. */
  function ExampleCounts(): seq<Entry>
  {
    [Entry("strongBuy", 3), Entry("buy", 1), Entry("hold", 0), Entry("sell", 0), Entry("strongSell", 0)]
  }

  lemma {:induction false} ExampleCountsAreOptions()
    ensures forall e :: e in ExampleCounts() ==> ParseChoice(e.key).Some?
  {
    var data := ExampleCounts();
    forall i | 0 <= i < |data|
      ensures ParseChoice(data[i].key).Some?
    {
    }
  }

  lemma {:induction false} ExampleCountsAreVoteData()
    ensures VoteData(ExampleCounts()) == ExampleCounts()
  {
    var data := ExampleCounts();
    forall i | 0 <= i < |data|
      ensures !IsMetaKey(data[i].key)
    {
      assert ParseChoice(data[i].key).Some?;
    }
    VoteDataWithoutMetadata(data);
  }

  /** With no votes anywhere every share is zero. */
  lemma {:induction false} ExampleAllZero(width: int)
    ensures var s := [Entry("strongBuy", 0), Entry("buy", 0), Entry("hold", 0), Entry("sell", 0), Entry("strongSell", 0)];
            && Render(s, width).Some?
            && Render(s, width).value.total == 0
            && forall i :: 0 <= i < |Render(s, width).value.rows| ==> Render(s, width).value.rows[i].percent == 0.0
  {
    var s := [Entry("strongBuy", 0), Entry("buy", 0), Entry("hold", 0), Entry("sell", 0), Entry("strongSell", 0)];
    forall i | 0 <= i < |s|
      ensures !IsMetaKey(s[i].key) && ParseChoice(s[i].key).Some?
    {
    }
    VoteDataWithoutMetadata(s);
    SumOfVoteData(s);
  }

  /** A count under a key the option table does not know makes the whole
      render fail, even next to known options. */
  lemma {:induction false} ExampleUnknownKeyFails(width: int)
    ensures Render([Entry("strongBuy", 2), Entry("maybe", 1), Entry("totalVotes", 3)], width).None?
  {
    var s := [Entry("strongBuy", 2), Entry("maybe", 1), Entry("totalVotes", 3)];
    assert Entry("maybe", 1) in s && !IsMetaKey("maybe");
    assert ParseChoice("maybe").None?;
  }
}
