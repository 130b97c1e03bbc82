/** Rating systems, `app/lib/rating-validation.ts`: validating a stored
    configuration, validating a rating against it, displaying and comparing
    ratings. `Number.parseFloat` is a parameter (`parse`, with `None` for
    `NaN`); floating-point rounding is not modelled. */
module Rating {
  import opened Wrappers
  import opened Text

  // ---------------------------------------------------------------------
  // Configurations: as JSON, and typed
  // ---------------------------------------------------------------------

  /** The JSON a configuration is stored as. */
  datatype Json = JNull | JBool(b: bool) | JNum(n: real) | JStr(s: string) | JArr(items: seq<Json>) | JObj(fields: map<string, Json>)

  /** JavaScript truthiness of a JSON value (`NaN` cannot occur in JSON). */
  predicate JsonTruthy(j: Json) {
    match j
    case JNull => false
    case JBool(b) => b
    case JNum(n) => n != 0.0
    case JStr(s) => s != ""
    case _ => true
  }

  /** `obj.key`: `None` for `undefined`. Arrays carry none of the keys read here. */
  function Field(j: Json, key: string): (r: Option<Json>)
    ensures r.Some? ==> j.JObj? && key in j.fields && r.value == j.fields[key]
    ensures j.JObj? && key in j.fields ==> r.Some?
  {
    if j.JObj? && key in j.fields then Some(j.fields[key]) else None
  }

  datatype Direction = HigherIsBetter | LowerIsBetter

  /** `RatingSystemConfig`; an absent `allow_decimals` reads as false. */
  datatype RatingSystem =
    | OrderedList(values: seq<string>)
    | NumericRange(min: real, max: real, direction: Direction, allowDecimals: bool)
    | NumericUnbounded(direction: Direction, allowDecimals: bool)

  /** The `type` tag stored next to a configuration. */
  function TypeName(cfg: RatingSystem): string {
    match cfg
    case OrderedList(_) => "ordered_list"
    case NumericRange(_, _, _, _) => "numeric_range"
    case NumericUnbounded(_, _) => "numeric_unbounded"
  }

  function DirectionName(d: Direction): string {
    if d == HigherIsBetter then "higher_is_better" else "lower_is_better"
  }

  /** The configurations the validator accepts: at least two non-empty
      labels, or a range whose minimum is below its maximum. */
  predicate WellFormed(cfg: RatingSystem) {
    match cfg
    case OrderedList(values) => |values| >= 2 && forall i :: 0 <= i < |values| ==> values[i] != ""
    case NumericRange(min, max, _, _) => min < max
    case NumericUnbounded(_, _) => true
  }

  function StringsToJson(values: seq<string>): (r: seq<Json>)
    ensures |r| == |values|
    ensures forall i :: 0 <= i < |r| ==> r[i] == JStr(values[i])
  {
    if |values| == 0 then [] else [JStr(values[0])] + StringsToJson(values[1..])
  }

  /** The labels of an array whose every item is a non-empty string. */
  function LabelsOf(items: seq<Json>): (r: Option<seq<string>>)
    ensures r.Some? <==> forall i :: 0 <= i < |items| ==> items[i].JStr? && items[i].s != ""
    ensures r.Some? ==> |r.value| == |items| && forall i :: 0 <= i < |items| ==> items[i] == JStr(r.value[i])
  {
    if |items| == 0 then Some([])
    else if !(items[0].JStr? && items[0].s != "") then None
    else match LabelsOf(items[1..])
      case None => None
      case Some(rest) => Some([items[0].s] + rest)
  }

  function DirectionOf(j: Option<Json>): (r: Option<Direction>)
    ensures r.Some? <==> j == Some(JStr("higher_is_better")) || j == Some(JStr("lower_is_better"))
    ensures r.Some? ==> j == Some(JStr(DirectionName(r.value)))
  {
    if j == Some(JStr("higher_is_better")) then Some(HigherIsBetter)
    else if j == Some(JStr("lower_is_better")) then Some(LowerIsBetter)
    else None
  }

  /** How a configuration is stored. */
  function Encode(cfg: RatingSystem): Json {
    match cfg
    case OrderedList(values) => JObj(map["values" := JArr(StringsToJson(values))])
    case NumericRange(min, max, d, dec) =>
      JObj(map["min" := JNum(min), "max" := JNum(max), "direction" := JStr(DirectionName(d)), "allow_decimals" := JBool(dec)])
    case NumericUnbounded(d, dec) =>
      JObj(map["direction" := JStr(DirectionName(d)), "allow_decimals" := JBool(dec)])
  }

  /** Reading a stored configuration back, when it is one. */
  function Decode(typ: string, config: Option<Json>): Option<RatingSystem> {
    if config.None? || !JsonTruthy(config.value) || !(config.value.JArr? || config.value.JObj?) then None
    else
      var c := config.value;
      var dec := Field(c, "allow_decimals");
      var allow := dec.Some? && JsonTruthy(dec.value);
      if typ == "ordered_list" then
        match Field(c, "values")
        case Some(JArr(items)) =>
          if |items| >= 2 then
            match LabelsOf(items)
            case Some(labels) => Some(OrderedList(labels))
            case None => None
          else None
        case _ => None
      else if typ == "numeric_range" then
        match (Field(c, "min"), Field(c, "max"), DirectionOf(Field(c, "direction")))
        case (Some(JNum(min)), Some(JNum(max)), Some(d)) =>
          if min < max then Some(NumericRange(min, max, d, allow)) else None
        case _ => None
      else if typ == "numeric_unbounded" then
        match DirectionOf(Field(c, "direction"))
        case Some(d) => Some(NumericUnbounded(d, allow))
        case None => None
      else None
  }

  /** `validateRatingSystemConfig`: a truthy object, then per type: at least
      two non-empty string labels; numeric bounds with `min < max` and a known
      direction; a known direction. Any other type is refused. */
  function ValidateRatingSystemConfig(typ: string, config: Option<Json>): (ok: bool)
    ensures ok ==> config.Some? && config.value.JObj?
    ensures ok ==> typ in {"ordered_list", "numeric_range", "numeric_unbounded"}
  {
    if config.None? || !JsonTruthy(config.value) || !(config.value.JArr? || config.value.JObj?) then false
    else
      var c := config.value;
      if typ == "ordered_list" then
        var v := Field(c, "values");
        v.Some? && v.value.JArr? && |v.value.items| >= 2
        && forall i :: 0 <= i < |v.value.items| ==> v.value.items[i].JStr? && |v.value.items[i].s| > 0
      else if typ == "numeric_range" then
        var min, max := Field(c, "min"), Field(c, "max");
        min.Some? && min.value.JNum? && max.Some? && max.value.JNum? && min.value.n < max.value.n
        && (Field(c, "direction") == Some(JStr("higher_is_better")) || Field(c, "direction") == Some(JStr("lower_is_better")))
      else if typ == "numeric_unbounded" then
        Field(c, "direction") == Some(JStr("higher_is_better")) || Field(c, "direction") == Some(JStr("lower_is_better"))
      else false
  }

  /** The validator accepts exactly the JSON that reads back as a
      configuration, and what it reads back is well formed. */
  lemma ValidateMeansDecodes(typ: string, config: Option<Json>)
    ensures ValidateRatingSystemConfig(typ, config) <==> Decode(typ, config).Some?
    ensures Decode(typ, config).Some? ==> WellFormed(Decode(typ, config).value)
                                          && TypeName(Decode(typ, config).value) == typ
  {
    if config.Some? && typ == "ordered_list" {
      var v := Field(config.value, "values");
      if v.Some? && v.value.JArr? {
        var items := v.value.items;
        var labels := LabelsOf(items);
        if labels.Some? {
          assert forall i :: 0 <= i < |items| ==> labels.value[i] == items[i].s;
        }
      }
    }
  }

  /** Every well-formed configuration survives storing and reading back, and
      its stored form passes the validator. */
  lemma EncodeDecodeRoundTrip(cfg: RatingSystem)
    requires WellFormed(cfg)
    ensures Decode(TypeName(cfg), Some(Encode(cfg))) == Some(cfg)
    ensures ValidateRatingSystemConfig(TypeName(cfg), Some(Encode(cfg)))
  {
    match cfg
    case OrderedList(values) =>
      var items := StringsToJson(values);
      var labels := LabelsOf(items);
      assert labels.Some?;
      assert labels.value == values;
      assert Field(Encode(cfg), "values") == Some(JArr(items));
    case NumericRange(min, max, d, dec) =>
      assert Field(Encode(cfg), "direction") == Some(JStr(DirectionName(d)));
    case NumericUnbounded(d, dec) =>
      assert Field(Encode(cfg), "direction") == Some(JStr(DirectionName(d)));
    ValidateMeansDecodes(TypeName(cfg), Some(Encode(cfg)));
  }

  // ---------------------------------------------------------------------
  // Validating and displaying a rating
  // ---------------------------------------------------------------------

  /** `Number.isInteger` on a finite number. */
  predicate IsInteger(x: real) {
    x.Floor as real == x
  }

  /** The number a numeric rating parses to, when decimals are allowed or it
      is whole; `None` otherwise. */
  function AcceptedNumber(value: string, allowDecimals: bool, parse: string -> Option<real>): (r: Option<real>)
    ensures r.Some? <==> parse(value).Some? && (allowDecimals || IsInteger(parse(value).value))
    ensures r.Some? ==> r == parse(value)
  {
    match parse(value)
    case None => None
    case Some(num) => if !allowDecimals && !IsInteger(num) then None else Some(num)
  }

  /** `validateRatingValue`: an empty rating is always valid; any other needs
      a configuration, and then a label of the list, or a number that is whole
      unless decimals are allowed and, for a range, lies within it. */
  function ValidateRatingValue(value: Option<string>, cfg: Option<RatingSystem>, parse: string -> Option<real>): (ok: bool)
    ensures !Truthy(value) ==> ok
    ensures Truthy(value) && cfg.None? ==> !ok
    ensures Truthy(value) && cfg.Some? && cfg.value.OrderedList? ==> (ok <==> value.value in cfg.value.values)
    ensures Truthy(value) && cfg.Some? && cfg.value.NumericRange? ==>
              (ok <==> var n := AcceptedNumber(value.value, cfg.value.allowDecimals, parse);
                       n.Some? && cfg.value.min <= n.value <= cfg.value.max)
    ensures Truthy(value) && cfg.Some? && cfg.value.NumericUnbounded? ==>
              (ok <==> AcceptedNumber(value.value, cfg.value.allowDecimals, parse).Some?)
  {
    if !Truthy(value) then true
    else if cfg.None? then false
    else match cfg.value
      case OrderedList(values) => value.value in values
      case NumericRange(min, max, _, dec) =>
        (match parse(value.value)
         case None => false
         case Some(num) =>
           if !dec && !IsInteger(num) then false
           else num >= min && num <= max)
      case NumericUnbounded(_, dec) =>
        match parse(value.value)
        case None => false
        case Some(num) => !(!dec && !IsInteger(num))
  }

  /** `getRatingDisplayValue`: "-" for a missing rating or configuration. */
  function GetRatingDisplayValue(value: Option<string>, cfg: Option<RatingSystem>): (r: string)
    ensures r == "-" <==> !Truthy(value) || cfg.None? || value == Some("-")
    ensures r != "-" ==> value == Some(r)
  {
    if !Truthy(value) || cfg.None? then "-" else value.value
  }

  /** A rating the validator accepts under a configuration is displayed as
      written; an empty one as "-". */
  lemma ValidRatingDisplayed(value: Option<string>, cfg: RatingSystem, parse: string -> Option<real>)
    requires ValidateRatingValue(value, Some(cfg), parse)
    ensures Truthy(value) ==> GetRatingDisplayValue(value, Some(cfg)) == value.value
    ensures !Truthy(value) ==> GetRatingDisplayValue(value, Some(cfg)) == "-"
  {
  }

  /** Every label of an ordered list is a valid rating. */
  lemma ListedLabelsValid(values: seq<string>, i: nat, parse: string -> Option<real>)
    requires i < |values| && values[i] != ""
    ensures ValidateRatingValue(Some(values[i]), Some(OrderedList(values)), parse)
  {
  }

  // ---------------------------------------------------------------------
  // Comparing ratings
  // ---------------------------------------------------------------------

  /** `Array.prototype.indexOf`: the first position, or -1. */
  function IndexOf(values: seq<string>, x: string): (r: int)
    ensures -1 <= r < |values|
    ensures r == -1 <==> x !in values
    ensures r >= 0 ==> values[r] == x && forall j :: 0 <= j < r ==> values[j] != x
  {
    if |values| == 0 then -1
    else if values[0] == x then 0
    else var k := IndexOf(values[1..], x); if k == -1 then -1 else k + 1
  }

  function Sign(x: real): int {
    if x < 0.0 then -1 else if x > 0.0 then 1 else 0
  }

  /** The scores of a direction, with the better rating scoring higher. */
  function Score(n: real, d: Direction): real {
    if d == HigherIsBetter then n else -n
  }

  /** `compareRatings` as written: negative, zero or positive. An empty
      rating sorts below any other; without a configuration all others tie;
      an unlisted label or unparsable number sorts below any listed or
      parsed one. Listed labels compare by `indexA - indexB`; numbers by the
      direction. */
  function CompareRatings(a: Option<string>, b: Option<string>, cfg: Option<RatingSystem>, parse: string -> Option<real>): (r: real)
    ensures Sign(r) == KeyOrder(RatingKey(a, cfg, parse, false), RatingKey(b, cfg, parse, false))
  {
    if !Truthy(a) && !Truthy(b) then 0.0
    else if !Truthy(a) then -1.0
    else if !Truthy(b) then 1.0
    else if cfg.None? then 0.0
    else match cfg.value
      case OrderedList(values) =>
        var indexA := IndexOf(values, a.value);
        var indexB := IndexOf(values, b.value);
        if indexA == -1 && indexB == -1 then 0.0
        else if indexA == -1 then -1.0
        else if indexB == -1 then 1.0
        else (indexA - indexB) as real
      case _ =>
        var numA := parse(a.value);
        var numB := parse(b.value);
        if numA.None? && numB.None? then 0.0
        else if numA.None? then -1.0
        else if numB.None? then 1.0
        else if cfg.value.direction == HigherIsBetter then numA.value - numB.value
        else numB.value - numA.value
  }

  /** Where a rating sits in the order a comparator induces: a tier (empty,
      unrecognised, recognised) and, within the recognised tier, a score. For
      a list the score is the index as written, or its negation (first is
      best) when `bestFirst` holds. */
  datatype Key = Key(tier: nat, score: real)

  function RatingKey(x: Option<string>, cfg: Option<RatingSystem>, parse: string -> Option<real>, bestFirst: bool): Key {
    if !Truthy(x) then Key(0, 0.0)
    else if cfg.None? then Key(2, 0.0)
    else match cfg.value
      case OrderedList(values) =>
        var i := IndexOf(values, x.value);
        if i == -1 then Key(1, 0.0) else Key(2, if bestFirst then -(i as real) else i as real)
      case _ =>
        match parse(x.value)
        case None => Key(1, 0.0)
        case Some(n) => Key(2, Score(n, cfg.value.direction))
  }

  /** The lexicographic order on keys, as -1, 0 or 1. */
  function KeyOrder(k1: Key, k2: Key): int {
    if k1.tier != k2.tier then (if k1.tier < k2.tier then -1 else 1)
    else Sign(k1.score - k2.score)
  }

  /** The comparator is a total preorder: reflexive, antisymmetric in sign,
      and transitive, so sorting with it is well defined. */
  lemma CompareIsTotalPreorder(a: Option<string>, b: Option<string>, c: Option<string>,
                               cfg: Option<RatingSystem>, parse: string -> Option<real>)
    ensures CompareRatings(a, a, cfg, parse) == 0.0
    ensures Sign(CompareRatings(a, b, cfg, parse)) == -Sign(CompareRatings(b, a, cfg, parse))
    ensures CompareRatings(a, b, cfg, parse) <= 0.0 && CompareRatings(b, c, cfg, parse) <= 0.0
            ==> CompareRatings(a, c, cfg, parse) <= 0.0
  {
    var ka, kb, kc := RatingKey(a, cfg, parse, false), RatingKey(b, cfg, parse, false), RatingKey(c, cfg, parse, false);
    assert Sign(CompareRatings(a, a, cfg, parse)) == 0;
  }

  /** "Better" as the configuration defines it: an earlier label of the list
      (the first is best), or a number further in the direction's favour. */
  predicate Better(a: string, b: string, cfg: RatingSystem, parse: string -> Option<real>) {
    match cfg
    case OrderedList(values) => a in values && b in values && IndexOf(values, a) < IndexOf(values, b)
    case _ => parse(a).Some? && parse(b).Some? && Score(parse(a).value, cfg.direction) > Score(parse(b).value, cfg.direction)
  }

  /** As written, numbers follow "better is greater", but list labels do the
      opposite: the better label compares as smaller. */
  lemma ListOrderInverted(values: seq<string>, i: nat, j: nat, parse: string -> Option<real>)
    requires i < j < |values| && values[i] != "" && values[j] != ""
    requires values[i] !in values[..i] && values[j] !in values[..j]
    ensures Better(values[i], values[j], OrderedList(values), parse)
    ensures CompareRatings(Some(values[i]), Some(values[j]), Some(OrderedList(values)), parse) < 0.0
  {
    FirstIndex(values, i);
    FirstIndex(values, j);
  }

  /** A label that does not occur earlier sits at its own index. */
  lemma FirstIndex(values: seq<string>, i: nat)
    requires i < |values| && values[i] !in values[..i]
    ensures IndexOf(values, values[i]) == i
  {
    forall j | 0 <= j < i ensures values[j] != values[i] {
      assert values[j] == values[..i][j];
    }
  }

  /** The comparison with list labels ranked first-is-best, the order the
      documentation promises ("better ratings are greater"). */
  function CompareRatingsCorrected(a: Option<string>, b: Option<string>, cfg: Option<RatingSystem>, parse: string -> Option<real>): (r: real)
    ensures Sign(r) == KeyOrder(RatingKey(a, cfg, parse, true), RatingKey(b, cfg, parse, true))
  {
    if cfg.Some? && cfg.value.OrderedList? && Truthy(a) && Truthy(b) then
      var indexA := IndexOf(cfg.value.values, a.value);
      var indexB := IndexOf(cfg.value.values, b.value);
      if indexA == -1 && indexB == -1 then 0.0
      else if indexA == -1 then -1.0
      else if indexB == -1 then 1.0
      else (indexB - indexA) as real
    else CompareRatings(a, b, cfg, parse)
  }

  /** Corrected, a better rating compares as greater under every kind of
      configuration, and the comparator remains a total preorder. */
  lemma CorrectedBetterIsGreater(a: string, b: string, c: Option<string>, cfg: RatingSystem, parse: string -> Option<real>)
    requires a != "" && b != ""
    ensures Better(a, b, cfg, parse) ==> CompareRatingsCorrected(Some(a), Some(b), Some(cfg), parse) > 0.0
    ensures Sign(CompareRatingsCorrected(Some(a), Some(b), Some(cfg), parse))
         == -Sign(CompareRatingsCorrected(Some(b), Some(a), Some(cfg), parse))
    ensures CompareRatingsCorrected(Some(a), Some(b), Some(cfg), parse) <= 0.0
            && CompareRatingsCorrected(Some(b), c, Some(cfg), parse) <= 0.0
            ==> CompareRatingsCorrected(Some(a), c, Some(cfg), parse) <= 0.0
  {
  }
}
