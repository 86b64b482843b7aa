/**
  The two select-box option lists: the topics, as `unique()` lists them, and
  the hotels, "Todos" followed by the sorted distinct names.
 */
module Options {
  import opened Sequences
  import opened StringOrder
  import opened Selection

  function TopicColumn(rows: seq<Review>): (col: seq<string>)
    ensures |col| == |rows|
    ensures forall i :: 0 <= i < |rows| ==> col[i] == rows[i].topic
  {
    seq(|rows|, i requires 0 <= i < |rows| => rows[i].topic)
  }

  function NameColumn(rows: seq<Review>): (col: seq<string>)
    ensures |col| == |rows|
    ensures forall i :: 0 <= i < |rows| ==> col[i] == rows[i].name
  {
    seq(|rows|, i requires 0 <= i < |rows| => rows[i].name)
  }

  /**
    `df['topic_label'].unique().tolist()`: every topic that occurs, once,
    ordered by where it first occurs.
   */
  function Topics(rows: seq<Review>): (r: seq<string>)
    ensures forall t :: t in r <==> exists i :: 0 <= i < |rows| && rows[i].topic == t
    ensures forall t :: t in r <==> t in TopicColumn(rows)
    ensures forall i, j :: 0 <= i < j < |r| ==> r[i] != r[j]
    ensures forall i, j :: 0 <= i < j < |r| ==>
      IndexOf(TopicColumn(rows), r[i]) < IndexOf(TopicColumn(rows), r[j])
  {
    var col := TopicColumn(rows);
    var r := UniqueFrom(col, {});
    assert forall t :: t in col <==> exists i :: 0 <= i < |rows| && rows[i].topic == t by {
      forall t | t in col
        ensures exists i :: 0 <= i < |rows| && rows[i].topic == t
      {
        var i :| 0 <= i < |col| && col[i] == t;
      }
    }
    r
  }

  /**
    `['Todos'] + sorted(df['name'].unique().tolist())`: the "all hotels"
    option, then every hotel name once, in ascending order.
   */
  function HotelOptions(rows: seq<Review>): (r: seq<string>)
    ensures |r| == 1 + |Names(rows)|
    ensures r[0] == AllHotels
    ensures StrictlyAscending(r[1..])
    ensures forall h :: h in r[1..] <==> h in Names(rows)
  {
    [AllHotels] + SortSet(Names(rows))
  }

  /**
    The hotel list is Python's sorted list of the unique names: any
    ascending list holding exactly the elements of `unique()` is this one.
   */
  lemma HotelOptionsAreSortedUnique(rows: seq<Review>, sorted: seq<string>)
    requires StrictlyAscending(sorted)
    requires forall h :: h in sorted <==> h in UniqueFrom(NameColumn(rows), {})
    ensures HotelOptions(rows) == [AllHotels] + sorted
  {
    var col := NameColumn(rows);
    forall h | h in Names(rows)
      ensures h in col
    {
      var x :| x in rows && x.name == h;
      var i :| 0 <= i < |rows| && rows[i] == x;
      assert col[i] == h;
    }
    forall h | h in col
      ensures h in Names(rows)
    {
      var i :| 0 <= i < |col| && col[i] == h;
      assert rows[i] in rows;
    }
    var r := HotelOptions(rows);
    assert r[1..] == SortSet(Names(rows));
    AscendingEnumerationUnique(sorted, SortSet(Names(rows)));
  }
}
