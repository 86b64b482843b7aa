/**
  The per-review rating field: `parse_ratings` over the raw `ratings` cell,
  and the coercion of each rating value to a number with `float(...)`.
  `ast.literal_eval` and the parsing of a numeric string are not modelled;
  both are passed in as functions.
 */
module Ratings {
  import opened Wrappers

  /** A value inside a decoded ratings dictionary. */
  datatype Scalar = Num(x: real) | Text(s: string) | Null

  /**
    The raw `ratings` cell as the CSV reader delivers it: a string, an
    empty cell (NaN), or a cell the reader typed as a number.
   */
  datatype Cell = StrCell(s: string) | Missing | NumberCell(x: real)

  /** What `ast.literal_eval` can return: a dictionary, or any other literal. */
  datatype Literal = DictLit(entries: map<string, Scalar>) | OtherLit

  /** The two exceptions `parse_ratings` catches. */
  datatype DecodeError = ValueError | SyntaxError

  type RatingMap = map<string, Scalar>

  /** `ast.literal_eval` on a string. */
  type LiteralDecoder = string -> Result<Literal, DecodeError>

  /** `float(s)` on a string: a number, or `None` where Python raises ValueError. */
  type NumberParser = string -> Option<real>

  const EmptyRatings: Literal := DictLit(map[])

  /**
    `parse_ratings`: decode a string cell; anything that is not a string, and
    any string the decoder rejects, becomes the empty dictionary.
   */
  function ParseRatings(cell: Cell, decode: LiteralDecoder): (r: Literal)
    ensures !cell.StrCell? ==> r == EmptyRatings
    ensures cell.StrCell? && decode(cell.s).Failure? ==> r == EmptyRatings
    ensures cell.StrCell? && decode(cell.s).Success? ==> r == decode(cell.s).value
  {
    match cell
    case StrCell(s) =>
      (match decode(s)
       case Success(v) => v
       case Failure(_) => EmptyRatings)
    case _ => EmptyRatings
  }

  /**
    An empty parse result arises exactly from a non-string cell, a decode
    failure, or a string that really encodes the empty dictionary.
   */
  lemma ParseEmptyExactly(cell: Cell, decode: LiteralDecoder)
    ensures ParseRatings(cell, decode) == EmptyRatings <==>
      !cell.StrCell? || decode(cell.s).Failure? || decode(cell.s) == Success(EmptyRatings)
  {
  }

  /**
    The dictionary view of a parsed cell (`isinstance(x, dict)`, else `{}`).
    Datatype values are immutable, so the `.copy()` the card renderer takes
    is implicit: nothing done to the result is visible in the row.
   */
  function AsRatingMap(lit: Literal): (m: RatingMap)
    ensures lit.DictLit? ==> m == lit.entries
    ensures lit.OtherLit? ==> m == map[]
  {
    match lit
    case DictLit(entries) => entries
    case OtherLit => map[]
  }

  /**
    `float(value)` on one rating value: numbers pass through, strings go to
    the number parser, and `None` raises TypeError (here: no number).
   */
  function Coerce(v: Scalar, parse: NumberParser): (r: Option<real>)
    ensures v.Num? ==> r == Some(v.x)
    ensures v.Text? ==> r == parse(v.s)
    ensures v.Null? ==> r == None
  {
    match v
    case Num(x) => Some(x)
    case Text(s) => parse(s)
    case Null => None
  }

  /** The numeric part of a rating map: the keys whose values coerce, with their numbers. */
  function NumericScores(m: RatingMap, parse: NumberParser): (scores: map<string, real>) {
    map k | k in m && Coerce(m[k], parse).Some? :: Coerce(m[k], parse).value
  }

  /**
    The `hotel_scores` loop: visit every key, keep the value as a number
    when `float` accepts it, and skip just that key otherwise.
   */
  method CollectScores(m: RatingMap, parse: NumberParser) returns (scores: map<string, real>)
    ensures forall k :: k in scores <==> k in m && Coerce(m[k], parse).Some?
    ensures forall k :: k in scores ==> scores[k] == Coerce(m[k], parse).value
    ensures scores == NumericScores(m, parse)
  {
    scores := map[];
    var pending := m.Keys;
    while pending != {}
      invariant pending <= m.Keys
      invariant forall k :: k in scores <==> k in m && k !in pending && Coerce(m[k], parse).Some?
      invariant forall k :: k in scores ==> scores[k] == Coerce(m[k], parse).value
      decreases pending
    {
      var k :| k in pending;
      match Coerce(m[k], parse) {
        case Some(x) =>
          scores := scores[k := x];
        case None =>
      }
      pending := pending - {k};
    }
  }

  /** A value that does not coerce removes its own key from the numeric part and nothing else. */
  lemma UncoercibleDropsOnlyItsKey(m: RatingMap, k: string, v: Scalar, parse: NumberParser)
    requires Coerce(v, parse).None?
    ensures NumericScores(m[k := v], parse) == NumericScores(m, parse) - {k}
  {
  }

  /** A value that coerces adds exactly its key, with its number, to the numeric part. */
  lemma CoercibleAddsOnlyItsKey(m: RatingMap, k: string, v: Scalar, x: real, parse: NumberParser)
    requires Coerce(v, parse) == Some(x)
    ensures NumericScores(m[k := v], parse) == NumericScores(m, parse)[k := x]
  {
  }

  /**
    A worked case: `{'overall': 4, 'service': '5', 'cleanliness': 'n/a'}`
    keeps overall and service and drops cleanliness.
   */
  lemma MixedRatingsExample(parse: NumberParser)
    requires parse("5") == Some(5.0) && parse("n/a") == None
    ensures NumericScores(map["overall" := Num(4.0), "service" := Text("5"), "cleanliness" := Text("n/a")], parse)
      == map["overall" := 4.0, "service" := 5.0]
  {
    var m := map["overall" := Num(4.0), "service" := Text("5"), "cleanliness" := Text("n/a")];
    assert Coerce(m["cleanliness"], parse) == None;
    assert Coerce(m["service"], parse) == Some(5.0);
  }
}
