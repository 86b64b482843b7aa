/**
  The review selection of every dashboard: keep the chosen topic, then either
  the chosen hotel or (for "Todos") one review per hotel, then the first `n`.
  Two ways of picking one review per hotel appear: `drop_duplicates(subset=['name'])`
  and `groupby('name').head(1)`; both are modelled and shown to agree.
 */
module Selection {
  import opened Ratings
  import opened Sequences

  /** One dataset row. */
  datatype Review = Review(name: string, topic: string, text: string, ratings: Cell)

  /** The hotel option that means "no hotel filter". */
  const AllHotels: string := "Todos"

  function Names(rows: seq<Review>): (names: set<string>) {
    set x | x in rows :: x.name
  }

  lemma NamesSplit(rows: seq<Review>)
    requires rows != []
    ensures Names(rows) == {rows[0].name} + Names(rows[1..])
  {
    assert rows == [rows[0]] + rows[1..];
    forall nm | nm in Names(rows)
      ensures nm in {rows[0].name} + Names(rows[1..])
    {
      var x :| x in rows && x.name == nm;
      if x != rows[0] {
        assert x in rows[1..];
      }
    }
  }

  lemma NamesSnoc(rows: seq<Review>, x: Review)
    ensures Names(rows + [x]) == Names(rows) + {x.name}
  {
    forall nm | nm in Names(rows + [x])
      ensures nm in Names(rows) + {x.name}
    {
      var y :| y in rows + [x] && y.name == nm;
      if y != x {
        assert y in rows;
      }
    }
    assert x in rows + [x];
    forall nm | nm in Names(rows)
      ensures nm in Names(rows + [x])
    {
      var y :| y in rows && y.name == nm;
      assert y in rows + [x];
    }
  }

  /** Index of the first row of hotel `nm`. */
  function FirstIndexNamed(rows: seq<Review>, nm: string): (k: nat)
    requires nm in Names(rows)
    ensures k < |rows| && rows[k].name == nm
    ensures forall j :: 0 <= j < k ==> rows[j].name != nm
  {
    NamesSplit(rows);
    if rows[0].name == nm then 0 else 1 + FirstIndexNamed(rows[1..], nm)
  }

  /** `x` is the first row of its hotel in `rows`. */
  ghost predicate IsFirstOfHotel(rows: seq<Review>, x: Review) {
    x.name in Names(rows) && x == rows[FirstIndexNamed(rows, x.name)]
  }

  /** The rows of `r` come in the order in which their hotels first appear in `rows`. */
  ghost predicate InFirstOrder(rows: seq<Review>, r: seq<Review>) {
    && (forall i :: 0 <= i < |r| ==> r[i].name in Names(rows))
    && forall i, j :: 0 <= i < j < |r| ==> FirstIndexNamed(rows, r[i].name) < FirstIndexNamed(rows, r[j].name)
  }

  ghost predicate DistinctNames(r: seq<Review>) {
    forall i, j :: 0 <= i < j < |r| ==> r[i].name != r[j].name
  }

  /**
    `drop_duplicates(subset=['name'])`, continued past the hotels in `seen`:
    the first row of every hotel not yet seen, in the original order.
   */
  function DropDuplicatesFrom(rows: seq<Review>, seen: set<string>): (r: seq<Review>)
    decreases |rows|
  {
    if rows == [] then []
    else if rows[0].name in seen then DropDuplicatesFrom(rows[1..], seen)
    else [rows[0]] + DropDuplicatesFrom(rows[1..], seen + {rows[0].name})
  }

  lemma {:induction false} DropDuplicatesFromSubsequence(rows: seq<Review>, seen: set<string>)
    ensures IsSubsequence(DropDuplicatesFrom(rows, seen), rows)
    decreases |rows|
  {
    if rows != [] {
      if rows[0].name in seen {
        DropDuplicatesFromSubsequence(rows[1..], seen);
        SubsequencePrepend(DropDuplicatesFrom(rows[1..], seen), rows[1..], [rows[0]]);
        assert [rows[0]] + rows[1..] == rows;
      } else {
        var rest := DropDuplicatesFrom(rows[1..], seen + {rows[0].name});
        DropDuplicatesFromSubsequence(rows[1..], seen + {rows[0].name});
        assert ([rows[0]] + rest)[1..] == rest;
      }
    }
  }

  lemma {:induction false} DropDuplicatesFromNames(rows: seq<Review>, seen: set<string>)
    ensures Names(DropDuplicatesFrom(rows, seen)) == Names(rows) - seen
    decreases |rows|
  {
    if rows != [] {
      NamesSplit(rows);
      if rows[0].name in seen {
        DropDuplicatesFromNames(rows[1..], seen);
      } else {
        var rest := DropDuplicatesFrom(rows[1..], seen + {rows[0].name});
        DropDuplicatesFromNames(rows[1..], seen + {rows[0].name});
        NamesSplit([rows[0]] + rest);
        assert ([rows[0]] + rest)[1..] == rest;
      }
    }
  }

  lemma {:induction false} DropDuplicatesFromDistinct(rows: seq<Review>, seen: set<string>)
    ensures DistinctNames(DropDuplicatesFrom(rows, seen))
    decreases |rows|
  {
    if rows != [] {
      if rows[0].name in seen {
        DropDuplicatesFromDistinct(rows[1..], seen);
      } else {
        var rest := DropDuplicatesFrom(rows[1..], seen + {rows[0].name});
        DropDuplicatesFromDistinct(rows[1..], seen + {rows[0].name});
        DropDuplicatesFromNames(rows[1..], seen + {rows[0].name});
        var r := [rows[0]] + rest;
        forall i, j | 0 <= i < j < |r|
          ensures r[i].name != r[j].name
        {
          assert r[j] == rest[j - 1];
          assert rest[j - 1] in rest;
          if i > 0 {
            assert r[i] == rest[i - 1];
          }
        }
      }
    }
  }

  /** The first row of a hotel other than the head's is found in the tail. */
  lemma FirstOfHotelTail(rows: seq<Review>, y: Review)
    requires rows != [] && y.name != rows[0].name
    requires IsFirstOfHotel(rows[1..], y)
    ensures IsFirstOfHotel(rows, y)
  {
    NamesSplit(rows);
  }

  lemma {:induction false} DropDuplicatesFromFirst(rows: seq<Review>, seen: set<string>)
    ensures var r := DropDuplicatesFrom(rows, seen);
      forall i :: 0 <= i < |r| ==> IsFirstOfHotel(rows, r[i])
    decreases |rows|
  {
    if rows != [] {
      var seen' := if rows[0].name in seen then seen else seen + {rows[0].name};
      var rest := DropDuplicatesFrom(rows[1..], seen');
      DropDuplicatesFromFirst(rows[1..], seen');
      DropDuplicatesFromNames(rows[1..], seen');
      forall y | y in rest
        ensures IsFirstOfHotel(rows, y)
      {
        var k :| 0 <= k < |rest| && rest[k] == y;
        FirstOfHotelTail(rows, y);
      }
      if rows[0].name !in seen {
        assert rows[0] in rows;
        var r := [rows[0]] + rest;
        forall i | 0 <= i < |r|
          ensures IsFirstOfHotel(rows, r[i])
        {
          if i > 0 {
            assert r[i] == rest[i - 1];
          }
        }
      }
    }
  }

  /** A hotel other than the head's is first found one place later than in the tail. */
  lemma FirstIndexShift(rows: seq<Review>, nm: string)
    requires rows != [] && nm != rows[0].name && nm in Names(rows[1..])
    ensures nm in Names(rows)
    ensures FirstIndexNamed(rows, nm) == 1 + FirstIndexNamed(rows[1..], nm)
  {
    NamesSplit(rows);
  }

  /** Rows of the tail that avoid the head's hotel keep their order in the whole sequence. */
  lemma {:induction false} InFirstOrderTail(rows: seq<Review>, rest: seq<Review>)
    requires rows != [] && InFirstOrder(rows[1..], rest)
    requires forall k :: 0 <= k < |rest| ==> rest[k].name != rows[0].name
    ensures InFirstOrder(rows, rest)
    ensures forall k :: 0 <= k < |rest| ==> 0 < FirstIndexNamed(rows, rest[k].name)
  {
    forall k | 0 <= k < |rest|
      ensures rest[k].name in Names(rows)
      ensures FirstIndexNamed(rows, rest[k].name) == 1 + FirstIndexNamed(rows[1..], rest[k].name)
    {
      FirstIndexShift(rows, rest[k].name);
    }
  }

  /** The head's row put in front of such rows keeps the order. */
  lemma {:induction false} InFirstOrderCons(rows: seq<Review>, rest: seq<Review>)
    requires rows != [] && InFirstOrder(rows, rest)
    requires forall k :: 0 <= k < |rest| ==> 0 < FirstIndexNamed(rows, rest[k].name)
    ensures InFirstOrder(rows, [rows[0]] + rest)
  {
    var r := [rows[0]] + rest;
    assert forall i :: 0 <= i < |r| ==> r[i].name in Names(rows) by {
      assert rows[0] in rows;
      forall i | 0 < i < |r|
        ensures r[i].name in Names(rows)
      {
        assert r[i] == rest[i - 1];
      }
    }
    assert FirstIndexNamed(rows, rows[0].name) == 0 by {
      assert rows[0] in rows;
    }
    forall i, j | 0 <= i < j < |r|
      ensures FirstIndexNamed(rows, r[i].name) < FirstIndexNamed(rows, r[j].name)
    {
      assert r[j] == rest[j - 1];
      if i > 0 {
        assert r[i] == rest[i - 1];
      }
    }
  }

  lemma {:induction false} DropDuplicatesFromOrdered(rows: seq<Review>, seen: set<string>)
    ensures InFirstOrder(rows, DropDuplicatesFrom(rows, seen))
    decreases |rows|
  {
    if rows != [] {
      var seen' := if rows[0].name in seen then seen else seen + {rows[0].name};
      var rest := DropDuplicatesFrom(rows[1..], seen');
      DropDuplicatesFromOrdered(rows[1..], seen');
      DropDuplicatesFromNames(rows[1..], seen');
      forall k | 0 <= k < |rest|
        ensures rest[k].name != rows[0].name
      {
        assert rest[k] in rest;
        assert rest[k].name in Names(rest);
      }
      InFirstOrderTail(rows, rest);
      if rows[0].name !in seen {
        InFirstOrderCons(rows, rest);
      }
    }
  }

  function DropDuplicates(rows: seq<Review>): (r: seq<Review>)
    ensures IsSubsequence(r, rows)
    ensures Names(r) == Names(rows)
    ensures DistinctNames(r)
    ensures forall i :: 0 <= i < |r| ==> IsFirstOfHotel(rows, r[i])
    ensures InFirstOrder(rows, r)
  {
    DropDuplicatesFromOrdered(rows, {});
    DropDuplicatesFromSubsequence(rows, {});
    DropDuplicatesFromNames(rows, {});
    DropDuplicatesFromDistinct(rows, {});
    DropDuplicatesFromFirst(rows, {});
    DropDuplicatesFrom(rows, {})
  }

  /** How many rows belong to hotel `nm`. */
  function NameCount(rows: seq<Review>, nm: string): (count: nat)
    decreases |rows|
  {
    if rows == [] then 0
    else NameCount(rows[..|rows| - 1], nm) + (if rows[|rows| - 1].name == nm then 1 else 0)
  }

  lemma NameCountSnoc(rows: seq<Review>, x: Review, nm: string)
    ensures NameCount(rows + [x], nm) == NameCount(rows, nm) + (if x.name == nm then 1 else 0)
  {
    assert (rows + [x])[..|rows|] == rows;
  }

  /**
    `groupby('name').head(k)`: a row is kept while fewer than `k` earlier
    rows share its hotel; kept rows stay in their original order.
   */
  function GroupHead(rows: seq<Review>, k: nat): (r: seq<Review>)
    ensures IsSubsequence(r, rows)
    ensures forall nm :: NameCount(r, nm) == Min(k, NameCount(rows, nm))
    decreases |rows|
  {
    if rows == [] then []
    else
      var init := rows[..|rows| - 1];
      var x := rows[|rows| - 1];
      var kept := GroupHead(init, k);
      var tail := if NameCount(init, x.name) < k then [x] else [];
      assert rows == init + [x];
      SubsequenceConcat(kept, init, tail, [x]);
      SubsequenceConcat(kept, init, [], [x]);
      assert kept + [] == kept;
      assert forall nm :: NameCount(rows, nm) == NameCount(init, nm) + (if x.name == nm then 1 else 0) by {
        forall nm { NameCountSnoc(init, x, nm); }
      }
      assert forall nm :: NameCount(kept + [x], nm) == NameCount(kept, nm) + (if x.name == nm then 1 else 0) by {
        forall nm { NameCountSnoc(kept, x, nm); }
      }
      kept + tail
  }

  lemma {:induction false} NameCountZero(rows: seq<Review>, nm: string)
    ensures NameCount(rows, nm) == 0 <==> nm !in Names(rows)
    decreases |rows|
  {
    if rows != [] {
      var init := rows[..|rows| - 1];
      NameCountZero(init, nm);
      assert rows == init + [rows[|rows| - 1]];
      NamesSnoc(init, rows[|rows| - 1]);
    }
  }

  /** Appending a row to the input appends it to `drop_duplicates` exactly when its hotel is new. */
  lemma {:induction false} DropDuplicatesSnoc(rows: seq<Review>, x: Review, seen: set<string>)
    ensures DropDuplicatesFrom(rows + [x], seen) ==
      DropDuplicatesFrom(rows, seen) + (if x.name in seen + Names(rows) then [] else [x])
    decreases |rows|
  {
    if rows == [] {
      assert rows + [x] == [x];
      assert [x][1..] == [];
    } else {
      assert (rows + [x])[0] == rows[0];
      assert (rows + [x])[1..] == rows[1..] + [x];
      NamesSplit(rows);
      if rows[0].name in seen {
        DropDuplicatesSnoc(rows[1..], x, seen);
      } else {
        DropDuplicatesSnoc(rows[1..], x, seen + {rows[0].name});
      }
    }
  }

  /** `groupby('name').head(1)` and `drop_duplicates(subset=['name'])` select the same rows in the same order. */
  lemma {:induction false} HeadOneIsDropDuplicates(rows: seq<Review>)
    ensures GroupHead(rows, 1) == DropDuplicates(rows)
    decreases |rows|
  {
    if rows != [] {
      var init := rows[..|rows| - 1];
      var x := rows[|rows| - 1];
      assert rows == init + [x];
      HeadOneIsDropDuplicates(init);
      GroupHeadSnoc(init, x, 1);
      DropDuplicatesSnoc(init, x, {});
      NameCountZero(init, x.name);
      assert {} + Names(init) == Names(init);
    }
  }

  /** The row mask `df['topic_label'] == topic`. */
  function TopicIs(topic: string): (mask: Review -> bool) {
    (x: Review) => x.topic == topic
  }

  /** The row mask `df['name'] == hotel`. */
  function HotelIs(hotel: string): (mask: Review -> bool) {
    (x: Review) => x.name == hotel
  }

  /** The combined mask `(df['topic_label'] == topic) & (df['name'] == hotel)`. */
  function TopicHotelIs(topic: string, hotel: string): (mask: Review -> bool) {
    (x: Review) => x.topic == topic && x.name == hotel
  }

  function WithTopic(rows: seq<Review>, topic: string): (r: seq<Review>) {
    Filter(rows, TopicIs(topic))
  }

  function WithHotel(rows: seq<Review>, hotel: string): (r: seq<Review>) {
    Filter(rows, HotelIs(hotel))
  }

  /** The mask of hotel `nm` keeps exactly `NameCount` rows. */
  lemma {:induction false} WithHotelCount(rows: seq<Review>, nm: string)
    ensures |WithHotel(rows, nm)| == NameCount(rows, nm)
    decreases |rows|
  {
    if rows != [] {
      var init := rows[..|rows| - 1];
      var x := rows[|rows| - 1];
      assert rows == init + [x];
      WithHotelCount(init, nm);
      FilterConcat(init, [x], HotelIs(nm));
      WithHotelOne(x, nm);
      NameCountSnoc(init, x, nm);
    }
  }

  lemma GroupHeadSnoc(rows: seq<Review>, x: Review, k: nat)
    ensures GroupHead(rows + [x], k) == GroupHead(rows, k) + (if NameCount(rows, x.name) < k then [x] else [])
  {
    assert (rows + [x])[..|rows|] == rows;
  }

  lemma WithHotelOne(x: Review, nm: string)
    ensures WithHotel([x], nm) == if x.name == nm then [x] else []
  {
    assert [x][1..] == [];
  }

  /**
    `groupby('name').head(k)` is exact per hotel: the rows it keeps of hotel
    `nm` are the first `k` rows of that hotel, in their original order.
   */
  lemma {:induction false} GroupHeadPerHotel(rows: seq<Review>, k: nat, nm: string)
    ensures WithHotel(GroupHead(rows, k), nm) == Take(WithHotel(rows, nm), k)
    decreases |rows|
  {
    if rows != [] {
      var init := rows[..|rows| - 1];
      var x := rows[|rows| - 1];
      assert rows == init + [x];
      var kept := GroupHead(init, k);
      var f := WithHotel(init, nm);
      var tail := if NameCount(init, x.name) < k then [x] else [];
      GroupHeadSnoc(init, x, k);
      GroupHeadPerHotel(init, k, nm);
      FilterConcat(kept, tail, HotelIs(nm));
      FilterConcat(init, [x], HotelIs(nm));
      assert WithHotel(GroupHead(rows, k), nm) == Take(f, k) + WithHotel(tail, nm);
      assert Take(WithHotel(rows, nm), k) == Take(f + WithHotel([x], nm), k);
      WithHotelOne(x, nm);
      if x.name != nm {
        assert WithHotel(tail, nm) == [] by {
          if tail != [] {
            WithHotelOne(x, nm);
          }
        }
        assert f + [] == f;
        assert Take(f, k) + [] == Take(f, k);
      } else {
        WithHotelCount(init, nm);
        TakeSnoc(f, x, k);
        if NameCount(init, x.name) < k {
          assert Take(f, k) == f;
        } else {
          assert Take(f, k) + [] == Take(f, k);
        }
      }
    }
  }

  /** Which of the two one-row-per-hotel operations a dashboard uses. */
  datatype Dedupe = ByDropDuplicates | ByGroupHead

  /**
    The filtered frame before `head(n)`: rows of the topic, then rows of the
    hotel or, for "Todos", each hotel's first row of the topic; with both
    ways of picking that row the frame is the same. The per-row topic and
    hotel clauses are corollaries of the exact frame, kept for callers.
   */
  function Narrow(rows: seq<Review>, topic: string, hotel: string, how: Dedupe): (frame: seq<Review>)
    ensures IsSubsequence(frame, rows)
    ensures forall i :: 0 <= i < |frame| ==> frame[i].topic == topic
    ensures hotel != AllHotels ==> forall i :: 0 <= i < |frame| ==> frame[i].name == hotel
    ensures hotel != AllHotels ==> frame == Filter(rows, TopicHotelIs(topic, hotel))
    ensures hotel == AllHotels ==> frame == DropDuplicates(WithTopic(rows, topic))
  {
    var byTopic := WithTopic(rows, topic);
    if hotel != AllHotels then
      TopicThenHotel(rows, topic, hotel);
      WithHotel(byTopic, hotel)
    else
      var frame := match how
        case ByDropDuplicates => DropDuplicates(byTopic)
        case ByGroupHead => GroupHead(byTopic, 1);
      HeadOneIsDropDuplicates(byTopic);
      SubsequenceTransitive(frame, byTopic, rows);
      SubsequenceMembers(frame, byTopic);
      RowsOfTopic(rows, topic);
      frame
  }

  /** Filtering by topic and then by hotel keeps the rows of that topic and hotel. */
  lemma TopicThenHotel(rows: seq<Review>, topic: string, hotel: string)
    ensures WithHotel(WithTopic(rows, topic), hotel) == Filter(rows, TopicHotelIs(topic, hotel))
  {
    FilterFilter(rows, TopicIs(topic), HotelIs(hotel), TopicHotelIs(topic, hotel));
  }

  lemma RowsOfTopic(rows: seq<Review>, topic: string)
    ensures forall x :: x in WithTopic(rows, topic) ==> x.topic == topic
  {
    var r := WithTopic(rows, topic);
    forall x | x in r
      ensures x.topic == topic
    {
      var k :| 0 <= k < |r| && r[k] == x;
      assert TopicIs(topic)(r[k]);
    }
  }

  /**
    The rows the dashboard shows: a prefix of the filtered frame of length
    `min(n, |frame|)`, all of the chosen topic; all of the chosen hotel, or
    for "Todos" at most one per hotel, each its hotel's first row of the
    topic, and every hotel of the topic when the frame fits in `n`. The
    first two clauses give the exact rows; the rest are their corollaries,
    kept for callers.
   */
  function SelectReviews(rows: seq<Review>, topic: string, hotel: string, n: nat, how: Dedupe): (r: seq<Review>)
    ensures hotel != AllHotels ==> r == Take(Filter(rows, TopicHotelIs(topic, hotel)), n)
    ensures hotel == AllHotels ==> r == Take(DropDuplicates(WithTopic(rows, topic)), n)
    ensures r <= Narrow(rows, topic, hotel, how)
    ensures |r| == Min(n, |Narrow(rows, topic, hotel, how)|)
    ensures IsSubsequence(r, rows)
    ensures forall i :: 0 <= i < |r| ==> r[i].topic == topic
    ensures hotel != AllHotels ==> forall i :: 0 <= i < |r| ==> r[i].name == hotel
    ensures hotel == AllHotels ==> DistinctNames(r)
    ensures hotel == AllHotels ==> forall i :: 0 <= i < |r| ==> IsFirstOfHotel(WithTopic(rows, topic), r[i])
    ensures hotel == AllHotels && |Narrow(rows, topic, hotel, how)| <= n ==> Names(r) == Names(WithTopic(rows, topic))
  {
    var frame := Narrow(rows, topic, hotel, how);
    var r := Take(frame, n);
    SubsequenceOfPrefix(r, frame);
    SubsequenceTransitive(r, frame, rows);
    PrefixFacts(rows, topic, hotel, how, r);
    r
  }

  lemma PrefixFacts(rows: seq<Review>, topic: string, hotel: string, how: Dedupe, r: seq<Review>)
    requires r <= Narrow(rows, topic, hotel, how)
    ensures forall i :: 0 <= i < |r| ==> r[i].topic == topic
    ensures hotel != AllHotels ==> forall i :: 0 <= i < |r| ==> r[i].name == hotel
    ensures hotel == AllHotels ==> DistinctNames(r)
    ensures hotel == AllHotels ==> forall i :: 0 <= i < |r| ==> IsFirstOfHotel(WithTopic(rows, topic), r[i])
    ensures hotel == AllHotels && |r| == |Narrow(rows, topic, hotel, how)| ==> Names(r) == Names(WithTopic(rows, topic))
  {
    var frame := Narrow(rows, topic, hotel, how);
    assert forall i :: 0 <= i < |r| ==> r[i] == frame[i];
    if |r| == |frame| {
      assert r == frame;
    }
  }

  /** The dashboards using `drop_duplicates` and the one using `groupby(...).head(1)` show the same reviews. */
  lemma DedupeVariantsAgree(rows: seq<Review>, topic: string, hotel: string, n: nat)
    ensures SelectReviews(rows, topic, hotel, n, ByDropDuplicates) == SelectReviews(rows, topic, hotel, n, ByGroupHead)
  {
    HeadOneIsDropDuplicates(WithTopic(rows, topic));
  }
}
