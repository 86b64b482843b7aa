/**
  The "Ratings:" column of a review card: the overall line first when there
  is one, then every other attribute in ascending key order, each with the
  emoji of its attribute; an empty map shows a single "no ratings" line.
 */
module RatingCard {
  import opened Wrappers
  import opened Ratings
  import opened StringOrder

  const OverallKey: string := "overall"
  const NoRatingsMessage: string := "No hay ratings disponibles."

  /** The attribute-to-emoji table. */
  const Emojis: map<string, string> := map[
    "service" := "\U{1F6CE}\U{FE0F}",
    "cleanliness" := "\U{1F9FC}",
    "overall" := "\U{2B50}",
    "value" := "\U{1F4B0}",
    "location" := "\U{1F4CD}",
    "sleep_quality" := "\U{1F4A4}",
    "rooms" := "\U{1F6AA}"
  ]

  /** The emoji of an attribute missing from the table. */
  const FallbackEmoji: string := "\U{1F539}"

  /** The default the overall lookup names (the table has its own entry). */
  const OverallDefaultEmoji: string := "\U{2B50}"

  /** `emoji_map.get(key, "🔹")`. */
  function EmojiFor(key: string): (e: string)
    ensures key in Emojis ==> e == Emojis[key]
    ensures key !in Emojis ==> e == FallbackEmoji
  {
    if key in Emojis then Emojis[key] else FallbackEmoji
  }

  function OverallEmoji(): (e: string) {
    if OverallKey in Emojis then Emojis[OverallKey] else OverallDefaultEmoji
  }

  /** The fallback marks exactly the attributes the table does not know. */
  lemma FallbackOnlyForUnknownKeys(key: string)
    ensures EmojiFor(key) == FallbackEmoji <==> key !in Emojis
  {
    if key in Emojis {
      assert Emojis[key][0] != FallbackEmoji[0];
    }
  }

  /** The table is keyed "sleep_quality": a "sleep quality" attribute gets the fallback. */
  lemma SpacedSleepQualityFallsBack()
    ensures EmojiFor("sleep quality") == FallbackEmoji
    ensures EmojiFor("sleep_quality") != FallbackEmoji
  {
    FallbackOnlyForUnknownKeys("sleep quality");
    FallbackOnlyForUnknownKeys("sleep_quality");
  }

  function ToUpper(c: char): (u: char) {
    if 'a' <= c <= 'z' then (c as int - 32) as char else c
  }

  function ToLower(c: char): (l: char) {
    if 'A' <= c <= 'Z' then (c as int + 32) as char else c
  }

  /** `str.capitalize()` on ASCII letters: the first character upper case, the rest lower case. */
  function Capitalize(s: string): (r: string)
    ensures |r| == |s|
    ensures |s| > 0 ==> r[0] == ToUpper(s[0])
    ensures forall i :: 1 <= i < |s| ==> r[i] == ToLower(s[i])
  {
    if s == [] then []
    else [ToUpper(s[0])] + seq(|s| - 1, i requires 0 <= i < |s| - 1 => ToLower(s[i + 1]))
  }

  /** `m.pop(k, None)`: the removed value, if any, and the map without `k`. */
  function Pop(m: RatingMap, k: string): (r: (Option<Scalar>, RatingMap))
    ensures k in m ==> r.0 == Some(m[k])
    ensures k !in m ==> r.0 == None
    ensures r.1.Keys == m.Keys - {k}
    ensures forall j :: j in r.1 ==> r.1[j] == m[j]
  {
    (if k in m then Some(m[k]) else None, m - {k})
  }

  /** Putting a popped value back restores the map: the pop touches no other key. */
  lemma PopRestore(m: RatingMap, k: string)
    requires k in m
    ensures Pop(m, k).1[k := m[k]] == m
  {
  }

  /**
    One line of the column: a rating, drawn as `{emoji} {caption}: {value}/5`
    from its key and raw value, or a plain message.
   */
  datatype Line = RatingLine(key: string, value: Scalar) | Message(text: string)

  /** The emoji of a rating line; the overall line has its own lookup. */
  function LineEmoji(key: string): (e: string) {
    if key == OverallKey then OverallEmoji() else EmojiFor(key)
  }

  /** The caption of a rating line: "Overall", or the capitalized key. */
  function LineCaption(key: string): (caption: string) {
    if key == OverallKey then "Overall" else Capitalize(key)
  }

  /** The overall line's special case draws it exactly as the general rule would. */
  lemma OverallLineFollowsGeneralRule()
    ensures LineEmoji(OverallKey) == EmojiFor(OverallKey)
    ensures LineCaption(OverallKey) == Capitalize(OverallKey)
  {
    assert Capitalize(OverallKey) == "Overall";
  }

  /** The map shows an overall line: `overall` is present and not None. */
  predicate HasOverall(m: RatingMap) {
    OverallKey in m && m[OverallKey] != Null
  }

  function OverallLines(popped: Option<Scalar>): (lines: seq<Line>) {
    if popped.Some? && popped.value != Null then [RatingLine(OverallKey, popped.value)] else []
  }

  function LinesOf(rest: RatingMap, keys: seq<string>): (lines: seq<Line>)
    requires forall k :: k in keys ==> k in rest
    ensures |lines| == |keys|
    ensures forall i {:trigger lines[i]} :: 0 <= i < |keys| ==> lines[i] == RatingLine(keys[i], rest[keys[i]])
  {
    seq(|keys|, i requires 0 <= i < |keys| => RatingLine(keys[i], rest[keys[i]]))
  }

  lemma LinesOfOrdered(rest: RatingMap, keys: seq<string>)
    requires forall k :: k in keys ==> k in rest
    requires StrictlyAscending(keys)
    ensures var lines := LinesOf(rest, keys);
      forall i, j :: 0 <= i < j < |lines| ==> lines[i].RatingLine? && Less(lines[i].key, lines[j].key)
  {
  }

  /** `for key, value in sorted(rest.items())`: one line per key, ascending. */
  function AttributeLines(rest: RatingMap): (lines: seq<Line>)
    ensures |lines| == |rest.Keys|
    ensures forall i :: 0 <= i < |lines| ==>
      lines[i].RatingLine? && lines[i].key in rest && lines[i].value == rest[lines[i].key]
    ensures forall i, j :: 0 <= i < j < |lines| ==> lines[i].RatingLine? && Less(lines[i].key, lines[j].key)
  {
    var keys := SortSet(rest.Keys);
    LinesOfOrdered(rest, keys);
    LinesOf(rest, keys)
  }

  /** The line of key `k`, carrying its value. */
  lemma AttributeLineOf(rest: RatingMap, k: string) returns (j: nat)
    requires k in rest
    ensures j < |AttributeLines(rest)| && AttributeLines(rest)[j] == RatingLine(k, rest[k])
  {
    var keys := SortSet(rest.Keys);
    assert k in keys;
    j :| 0 <= j < |keys| && keys[j] == k;
    assert AttributeLines(rest) == LinesOf(rest, keys);
  }

  /** Every key of the map has its line. */
  lemma AttributeLinesCover(rest: RatingMap)
    ensures var lines := AttributeLines(rest);
      forall k :: k in rest ==> exists i :: 0 <= i < |lines| && lines[i].RatingLine? && lines[i].key == k
  {
    forall k | k in rest
      ensures exists i :: 0 <= i < |AttributeLines(rest)| && AttributeLines(rest)[i].RatingLine? && AttributeLines(rest)[i].key == k
    {
      var j := AttributeLineOf(rest, k);
    }
  }

  /** The lines of a non-empty map: the popped overall line, then the rest in key order. */
  function RatingLines(m: RatingMap): (lines: seq<Line>) {
    var popped := Pop(m, OverallKey);
    OverallLines(popped.0) + AttributeLines(popped.1)
  }

  lemma RatingLinesLength(m: RatingMap)
    ensures |RatingLines(m)| == (if HasOverall(m) then 1 else 0) + |m.Keys - {OverallKey}|
  {
    assert Pop(m, OverallKey).1 == m - {OverallKey};
  }

  lemma RatingLinesOverallFirst(m: RatingMap)
    ensures HasOverall(m) ==> RatingLines(m)[0] == RatingLine(OverallKey, m[OverallKey])
  {
  }

  /** The popped overall line, if any, followed by the lines of every other key. */
  lemma RatingLinesSplit(m: RatingMap)
    ensures RatingLines(m) ==
      (if HasOverall(m) then [RatingLine(OverallKey, m[OverallKey])] else []) + AttributeLines(m - {OverallKey})
  {
    assert Pop(m, OverallKey).1 == m - {OverallKey};
  }

  /** After the overall line, if any, come exactly the lines of the other keys. */
  lemma RatingLinesTail(m: RatingMap)
    ensures var first := if HasOverall(m) then 1 else 0;
      first <= |RatingLines(m)| && RatingLines(m)[first..] == AttributeLines(m - {OverallKey})
  {
    var head := if HasOverall(m) then [RatingLine(OverallKey, m[OverallKey])] else [];
    RatingLinesSplit(m);
    assert (head + AttributeLines(m - {OverallKey}))[|head|..] == AttributeLines(m - {OverallKey});
  }

  lemma RatingLineAt(m: RatingMap, i: nat)
    requires i < |RatingLines(m)|
    ensures var line := RatingLines(m)[i];
      line.RatingLine? && line.key in m && line.value == m[line.key]
  {
    var head := if HasOverall(m) then [RatingLine(OverallKey, m[OverallKey])] else [];
    var tail := AttributeLines(m - {OverallKey});
    RatingLinesSplit(m);
    if i >= |head| {
      assert RatingLines(m)[i] == tail[i - |head|];
      assert tail[i - |head|].key in m - {OverallKey};
    }
  }

  lemma RatingLinesValues(m: RatingMap)
    ensures var lines := RatingLines(m);
      forall i :: 0 <= i < |lines| ==>
        lines[i].RatingLine? && lines[i].key in m && lines[i].value == m[lines[i].key]
  {
    var lines := RatingLines(m);
    forall i | 0 <= i < |lines|
      ensures lines[i].RatingLine? && lines[i].key in m && lines[i].value == m[lines[i].key]
    {
      RatingLineAt(m, i);
    }
  }

  lemma RatingLinesOrdered(m: RatingMap)
    ensures var lines := RatingLines(m);
      var first := if HasOverall(m) then 1 else 0;
      && (forall i :: first <= i < |lines| ==> lines[i].RatingLine? && lines[i].key != OverallKey)
      && (forall i, j :: first <= i < j < |lines| ==> lines[i].RatingLine? && Less(lines[i].key, lines[j].key))
  {
    var lines := RatingLines(m);
    var first := if HasOverall(m) then 1 else 0;
    var tail := AttributeLines(m - {OverallKey});
    RatingLinesTail(m);
    forall i | first <= i < |lines|
      ensures lines[i] == tail[i - first]
    {
      assert lines[i] == lines[first..][i - first];
    }
  }

  /** The line of one key other than overall, found after the overall line. */
  lemma RatingLineOf(m: RatingMap, k: string) returns (i: nat)
    requires k in m && k != OverallKey
    ensures (if HasOverall(m) then 1 else 0) <= i < |RatingLines(m)|
    ensures RatingLines(m)[i].RatingLine? && RatingLines(m)[i].key == k
  {
    var rest := m - {OverallKey};
    var head := if HasOverall(m) then [RatingLine(OverallKey, m[OverallKey])] else [];
    var j := AttributeLineOf(rest, k);
    RatingLinesSplit(m);
    i := |head| + j;
    assert (head + AttributeLines(rest))[i] == AttributeLines(rest)[j];
  }

  lemma RatingLinesCover(m: RatingMap)
    ensures var lines := RatingLines(m);
      var first := if HasOverall(m) then 1 else 0;
      forall k :: k in m && k != OverallKey ==>
        exists i :: first <= i < |lines| && lines[i].RatingLine? && lines[i].key == k
  {
    forall k | k in m && k != OverallKey
      ensures exists i ::
          (if HasOverall(m) then 1 else 0) <= i < |RatingLines(m)| &&
          RatingLines(m)[i].RatingLine? && RatingLines(m)[i].key == k
    {
      var i := RatingLineOf(m, k);
    }
  }

  /**
    `lines` draws the non-empty map `m`: every line is a rating line carrying
    its key's value; the overall line comes first when overall is present and
    not None; after it, every other key has exactly one line, in strictly
    ascending key order, and overall does not appear again.
   */
  ghost predicate DrawsRatings(m: RatingMap, lines: seq<Line>) {
    var first := if HasOverall(m) then 1 else 0;
    && |lines| == first + |m.Keys - {OverallKey}|
    && (forall i :: 0 <= i < |lines| ==>
          lines[i].RatingLine? && lines[i].key in m && lines[i].value == m[lines[i].key])
    && (HasOverall(m) ==> lines[0] == RatingLine(OverallKey, m[OverallKey]))
    && (forall i :: first <= i < |lines| ==> lines[i].key != OverallKey)
    && (forall i, j :: first <= i < j < |lines| ==> Less(lines[i].key, lines[j].key))
    && (forall k :: k in m && k != OverallKey ==> exists i :: first <= i < |lines| && lines[i].key == k)
  }

  lemma RatingLinesDraw(m: RatingMap)
    ensures DrawsRatings(m, RatingLines(m))
  {
    RatingLinesLength(m);
    RatingLinesOverallFirst(m);
    RatingLinesValues(m);
    RatingLinesOrdered(m);
    RatingLinesCover(m);
  }

  /**
    The lines of the ratings column for one row's parsed ratings. The row's
    map is copied before `overall` is popped, so the row keeps it.
   */
  function CardLines(parsed: Literal): (lines: seq<Line>)
    ensures AsRatingMap(parsed) == map[] ==> lines == [Message(NoRatingsMessage)]
    ensures AsRatingMap(parsed) != map[] ==> DrawsRatings(AsRatingMap(parsed), lines)
  {
    var m := AsRatingMap(parsed);
    if m == map[] then [Message(NoRatingsMessage)]
    else
      RatingLinesDraw(m);
      RatingLines(m)
  }

  /** Every line of a non-empty map shows its own key once: the overall line never repeats. */
  lemma OverallAtMostOnce(parsed: Literal, i: nat)
    requires i < |CardLines(parsed)|
    requires AsRatingMap(parsed) != map[]
    requires CardLines(parsed)[i].key == OverallKey
    ensures i == 0 && HasOverall(AsRatingMap(parsed))
  {
  }

  /** A parse result that is not a dictionary renders like an empty one. */
  lemma NonDictRendersNoRatings()
    ensures CardLines(OtherLit) == [Message(NoRatingsMessage)]
  {
  }

  /**
    A map whose only key is `overall` with value None is not empty, so the
    "no ratings" message is skipped, yet it renders no line at all.
   */
  lemma NullOverallAloneRendersNothing()
    ensures CardLines(DictLit(map[OverallKey := Null])) == []
  {
    var m := map[OverallKey := Null];
    assert AsRatingMap(DictLit(m)) == m && !HasOverall(m);
    assert m.Keys - {OverallKey} == {};
    assert |CardLines(DictLit(m))| == 0;
  }
}
