/** Show-id slugs, `{date}-{artist-slug}-{venue_id}[-{sequence}]`, in their
    TypeScript form (app/lib/show-id.ts) and their Python twin
    (services/agent/app/services/show_id.py). */
module ShowId {
  import opened Wrappers
  import opened Text

  // ---------------------------------------------------------------------
  // The three regular-expression passes of the normalizer
  // ---------------------------------------------------------------------

  /** No two adjacent hyphens. */
  predicate NoDoubleHyphen(s: string) {
    forall i :: 0 <= i < |s| - 1 ==> s[i] != '-' || s[i + 1] != '-'
  }

  /** Every character is in `[a-z0-9-]`. */
  predicate SlugChars(s: string) {
    forall i :: 0 <= i < |s| ==> IsLowerAlnum(s[i]) || s[i] == '-'
  }

  /** The shape both normalizers promise: `[a-z0-9-]` only, hyphens single,
      none at either end. */
  predicate IsArtistSlug(s: string) {
    && SlugChars(s)
    && NoDoubleHyphen(s)
    && (|s| > 0 ==> s[0] != '-' && s[|s| - 1] != '-')
  }

  /** `replace(/[^a-z0-9]+/g, "-")`: every maximal run of characters outside
      `[a-z0-9]` becomes one hyphen. `inRun` records that the previous character
      was outside the class, so its run's hyphen is already written. */
  function ReplaceRuns(s: string, inRun: bool): (r: string)
    ensures SlugChars(r)
    ensures NoDoubleHyphen(r)
    ensures inRun && |r| > 0 ==> r[0] != '-'
  {
    if |s| == 0 then []
    else if IsLowerAlnum(s[0]) then [s[0]] + ReplaceRuns(s[1..], false)
    else if inRun then ReplaceRuns(s[1..], true)
    else ['-'] + ReplaceRuns(s[1..], true)
  }

  /** The suffix of `s` after its leading hyphens. */
  function DropHyphens(s: string): (r: string)
    ensures |r| <= |s|
    ensures |r| > 0 ==> r[0] != '-'
  {
    if |s| > 0 && s[0] == '-' then DropHyphens(s[1..]) else s
  }

  /** `replace(/-+/g, "-")`: every run of hyphens becomes one. */
  function SquashHyphens(s: string): (r: string)
    ensures NoDoubleHyphen(r)
    ensures |r| > 0 && r[0] == '-' ==> |s| > 0 && s[0] == '-'
    decreases |s|
  {
    if |s| == 0 then []
    else if s[0] == '-' then ['-'] + SquashHyphens(DropHyphens(s[1..]))
    else [s[0]] + SquashHyphens(s[1..])
  }

  /** `replace(/^-|-$/g, "")`: one leading and one trailing hyphen removed. */
  function StripOneHyphen(s: string): string {
    var a := if |s| > 0 && s[0] == '-' then s[1..] else s;
    if |a| > 0 && a[|a| - 1] == '-' then a[..|a| - 1] else a
  }

  /** Python `strip("-")`: all leading and trailing hyphens removed. */
  function StripHyphens(s: string): (r: string)
    ensures |r| > 0 ==> r[0] != '-' && r[|r| - 1] != '-'
  {
    if |s| > 0 && s[0] == '-' then StripHyphens(s[1..])
    else if |s| > 0 && s[|s| - 1] == '-' then StripHyphens(s[..|s| - 1])
    else s
  }

  // ---------------------------------------------------------------------
  // The normalizers
  // ---------------------------------------------------------------------

  /** `normalizeArtistName` (app/lib/show-id.ts): trim, lower-case, hyphenate
      runs outside `[a-z0-9]`, squash hyphens, drop an edge hyphen. */
  function NormalizeArtistName(artist: string): (r: string)
    ensures IsArtistSlug(r)
  {
    var replaced := ReplaceRuns(Lower(Trim(artist, JsSpace)), false);
    SquashIdentity(replaced);
    StripOneKeepsShape(replaced);
    StripOneHyphen(SquashHyphens(replaced))
  }

  /** `normalize_artist_name` (services/agent/app/services/show_id.py): the same
      passes with Python's whitespace set and `strip("-")`. */
  function NormalizeArtistNamePy(artist: string): (r: string)
    ensures IsArtistSlug(r)
  {
    var replaced := ReplaceRuns(Lower(Trim(artist, PySpace)), false);
    SquashIdentity(replaced);
    StripAllIsStripOne(replaced);
    StripOneKeepsShape(replaced);
    StripHyphens(SquashHyphens(replaced))
  }

  lemma {:induction false} DropHyphensNoop(s: string)
    requires |s| == 0 || s[0] != '-'
    ensures DropHyphens(s) == s
  {
  }

  /** Squashing changes nothing when no hyphens are doubled. */
  lemma {:induction false} SquashIdentity(s: string)
    requires NoDoubleHyphen(s)
    ensures SquashHyphens(s) == s
  {
    if |s| > 0 {
      assert NoDoubleHyphen(s[1..]);
      if s[0] == '-' {
        DropHyphensNoop(s[1..]);
      }
      SquashIdentity(s[1..]);
    }
  }

  /** With single hyphens only, dropping one hyphen per end yields the slug shape. */
  lemma StripOneKeepsShape(s: string)
    requires SlugChars(s) && NoDoubleHyphen(s)
    ensures IsArtistSlug(StripOneHyphen(s))
  {
    var a := if |s| > 0 && s[0] == '-' then s[1..] else s;
    assert SlugChars(a) && NoDoubleHyphen(a);
    if |a| > 0 && a[|a| - 1] == '-' {
      var b := a[..|a| - 1];
      assert SlugChars(b) && NoDoubleHyphen(b);
      if |b| > 0 {
        assert b[|b| - 1] == a[|a| - 2];
        if s[0] == '-' && |s| > 1 {
          assert b[0] == s[1];
        }
      }
    } else if |a| > 0 && s[0] == '-' {
      assert a[0] == s[1];
    }
  }

  /** Python's `strip("-")` and the TypeScript edge regex agree once hyphens are single. */
  lemma StripAllIsStripOne(s: string)
    requires NoDoubleHyphen(s)
    ensures StripHyphens(s) == StripOneHyphen(s)
  {
    if |s| > 0 && s[0] == '-' {
      var t := s[1..];
      assert NoDoubleHyphen(t);
      assert |t| > 0 ==> t[0] != '-';
      if |t| > 0 && t[|t| - 1] == '-' {
        var u := t[..|t| - 1];
        assert |u| > 0 ==> u[|u| - 1] != '-' && u[0] != '-';
        assert StripHyphens(u) == u;
      }
    } else if |s| > 0 && s[|s| - 1] == '-' {
      var u := s[..|s| - 1];
      assert |u| > 0 ==> u[|u| - 1] != '-' && u[0] != '-';
      assert StripHyphens(u) == u;
    }
  }

  // ---------------------------------------------------------------------
  // Idempotence
  // ---------------------------------------------------------------------

  lemma {:induction false} ReplaceRunsOnSlug(s: string, inRun: bool)
    requires SlugChars(s) && NoDoubleHyphen(s)
    requires inRun && |s| > 0 ==> s[0] != '-'
    ensures ReplaceRuns(s, inRun) == s
  {
    if |s| > 0 {
      assert SlugChars(s[1..]) && NoDoubleHyphen(s[1..]);
      ReplaceRunsOnSlug(s[1..], !IsLowerAlnum(s[0]));
    }
  }

  /** A slug is a fixed point of the TypeScript normalizer. */
  lemma NormalizeFixesSlug(s: string)
    requires IsArtistSlug(s)
    ensures NormalizeArtistName(s) == s
  {
    if |s| > 0 {
      assert !IsSpace(s[0], JsSpace) && !IsSpace(s[|s| - 1], JsSpace);
    }
    assert Trim(s, JsSpace) == s;
    LowerNoop(s);
    ReplaceRunsOnSlug(s, false);
    SquashIdentity(s);
  }

  /** `normalizeArtistName` is idempotent. */
  lemma NormalizeIdempotent(artist: string)
    ensures NormalizeArtistName(NormalizeArtistName(artist)) == NormalizeArtistName(artist)
  {
    NormalizeFixesSlug(NormalizeArtistName(artist));
  }

  // ---------------------------------------------------------------------
  // TypeScript and Python agree
  // ---------------------------------------------------------------------

  /** The normalizer after trimming and lower-casing, with the identity squash pass removed. */
  function Hyphenate(t: string): string {
    StripOneHyphen(ReplaceRuns(t, false))
  }

  /** Outside a run, the `inRun` flag matters only for a leading non-alphanumeric. */
  lemma RunFlagIrrelevant(t: string)
    requires |t| == 0 || IsLowerAlnum(t[0])
    ensures ReplaceRuns(t, true) == ReplaceRuns(t, false)
  {
  }

  /** A leading character outside `[a-z0-9]` does not change the slug. */
  lemma HyphenateDropsLeading(c: char, t: string)
    requires !IsLowerAlnum(c)
    ensures Hyphenate([c] + t) == Hyphenate(t)
  {
    assert ([c] + t)[1..] == t;
    assert ReplaceRuns([c] + t, false) == ['-'] + ReplaceRuns(t, true);
    if |t| > 0 && !IsLowerAlnum(t[0]) {
      assert ReplaceRuns(t, false) == ['-'] + ReplaceRuns(t[1..], true);
      assert ReplaceRuns(t, true) == ReplaceRuns(t[1..], true);
    } else {
      RunFlagIrrelevant(t);
      var x := ReplaceRuns(t, false);
      assert |x| > 0 ==> x[0] == t[0];
      assert (['-'] + x)[1..] == x;
    }
  }

  lemma {:induction false} HyphenateDropsPrefix(w: string, t: string)
    requires forall i :: 0 <= i < |w| ==> !IsLowerAlnum(w[i])
    ensures Hyphenate(w + t) == Hyphenate(t)
  {
    if |w| > 0 {
      assert w + t == [w[0]] + (w[1..] + t);
      HyphenateDropsLeading(w[0], w[1..] + t);
      HyphenateDropsPrefix(w[1..], t);
    } else {
      assert w + t == t;
    }
  }

  /** Whether the last character read was outside `[a-z0-9]`. */
  predicate EndsInRun(t: string, inRun: bool) {
    if |t| == 0 then inRun else !IsLowerAlnum(t[|t| - 1])
  }

  /** `ReplaceRuns` works piecewise: the second piece starts in the state the first ends in. */
  lemma {:induction false} ReplaceRunsConcat(a: string, b: string, inRun: bool)
    ensures ReplaceRuns(a + b, inRun) == ReplaceRuns(a, inRun) + ReplaceRuns(b, EndsInRun(a, inRun))
  {
    if |a| == 0 {
      assert a + b == b;
    } else {
      var next := !IsLowerAlnum(a[0]);
      assert (a + b)[0] == a[0] && (a + b)[1..] == a[1..] + b;
      ReplaceRunsConcat(a[1..], b, next);
      assert EndsInRun(a, inRun) == EndsInRun(a[1..], next);
    }
  }

  lemma {:induction false} ReplaceRunsLast(t: string, inRun: bool)
    requires |t| > 0 && IsLowerAlnum(t[|t| - 1])
    ensures |ReplaceRuns(t, inRun)| > 0
    ensures ReplaceRuns(t, inRun)[|ReplaceRuns(t, inRun)| - 1] == t[|t| - 1]
  {
    if |t| > 1 {
      ReplaceRunsLast(t[1..], !IsLowerAlnum(t[0]));
    }
  }

  /** A trailing character outside `[a-z0-9]` does not change the slug. */
  lemma HyphenateDropsTrailing(t: string, c: char)
    requires !IsLowerAlnum(c)
    ensures Hyphenate(t + [c]) == Hyphenate(t)
  {
    ReplaceRunsConcat(t, [c], false);
    var r := ReplaceRuns(t, false);
    if EndsInRun(t, false) {
      assert ReplaceRuns([c], true) == [];
      assert r + [] == r;
    } else {
      assert ReplaceRuns([c], false) == ['-'];
      if |t| == 0 {
        assert r == [];
      } else {
        ReplaceRunsLast(t, false);
        assert StripOneHyphen(r + ['-']) == StripOneHyphen(r) by {
          if r[0] == '-' {
            assert (r + ['-'])[1..] == r[1..] + ['-'];
            assert (r[1..] + ['-'])[..|r| - 1] == r[1..];
          } else {
            assert (r + ['-'])[..|r|] == r;
          }
        }
      }
    }
  }

  lemma {:induction false} HyphenateDropsSuffix(t: string, w: string)
    requires forall i :: 0 <= i < |w| ==> !IsLowerAlnum(w[i])
    ensures Hyphenate(t + w) == Hyphenate(t)
    decreases |w|
  {
    if |w| == 0 {
      assert t + w == t;
    } else {
      var last := w[|w| - 1];
      var front := w[..|w| - 1];
      assert w == front + [last];
      assert t + w == (t + front) + [last];
      HyphenateDropsTrailing(t + front, last);
      HyphenateDropsSuffix(t, front);
    }
  }

  /** Trimming (with either whitespace set) never changes the slug. */
  lemma TrimIrrelevant(artist: string, kind: SpaceKind)
    ensures Hyphenate(Lower(Trim(artist, kind))) == Hyphenate(Lower(artist))
  {
    var pre, post := TrimFrames(artist, kind);
    var lm := Lower(Trim(artist, kind));
    LowerOfFrames(artist, kind, pre, post);
    HyphenateDropsPrefix(pre, lm + post);
    HyphenateDropsSuffix(lm, post);
  }

  /** Lower-casing leaves the whitespace around the trimmed text alone. */
  lemma LowerOfFrames(artist: string, kind: SpaceKind, pre: string, post: string)
    requires artist == pre + Trim(artist, kind) + post
    requires forall i :: 0 <= i < |pre| ==> IsSpace(pre[i], kind)
    requires forall i :: 0 <= i < |post| ==> IsSpace(post[i], kind)
    ensures Lower(artist) == pre + (Lower(Trim(artist, kind)) + post)
  {
    var mid := Trim(artist, kind);
    assert artist == pre + (mid + post);
    LowerOfSpaces(pre, kind);
    LowerOfSpaces(post, kind);
    LowerAppend(pre, mid + post);
    LowerAppend(mid, post);
  }

  lemma LowerOfSpaces(s: string, kind: SpaceKind)
    requires forall i :: 0 <= i < |s| ==> IsSpace(s[i], kind)
    ensures Lower(s) == s
  {
    LowerNoop(s);
  }

  /** The TypeScript and Python normalizers compute the same slug for every input. */
  lemma NormalizersAgree(artist: string)
    ensures NormalizeArtistName(artist) == NormalizeArtistNamePy(artist)
    ensures NormalizeArtistName(artist) == Hyphenate(Lower(artist))
  {
    TrimIrrelevant(artist, JsSpace);
    TrimIrrelevant(artist, PySpace);
    SquashIdentity(ReplaceRuns(Lower(Trim(artist, JsSpace)), false));
    SquashIdentity(ReplaceRuns(Lower(Trim(artist, PySpace)), false));
    StripAllIsStripOne(ReplaceRuns(Lower(Trim(artist, PySpace)), false));
  }

  // ---------------------------------------------------------------------
  // generateShowId / generate_show_id
  // ---------------------------------------------------------------------

  /** `{date}-{slug}-{venueId}`, the id without a sequence suffix. */
  function BaseShowId(date: string, slug: string, venueId: string): string {
    date + "-" + slug + "-" + venueId
  }

  predicate PositiveSequence(sequence: Option<int>) {
    sequence.Some? && sequence.value > 0
  }

  /** `generateShowId`: a positive sequence is appended after a hyphen; an
      absent, zero or negative one is ignored. */
  function GenerateShowId(date: string, artist: string, venueId: string, sequence: Option<int>): (r: string)
    ensures BaseShowId(date, NormalizeArtistName(artist), venueId) <= r
    ensures !PositiveSequence(sequence) ==> r == BaseShowId(date, NormalizeArtistName(artist), venueId)
    ensures PositiveSequence(sequence) ==>
      |r| > |BaseShowId(date, NormalizeArtistName(artist), venueId)| + 1 &&
      r[|BaseShowId(date, NormalizeArtistName(artist), venueId)|] == '-' &&
      AllDigits(r[|BaseShowId(date, NormalizeArtistName(artist), venueId)| + 1..])
  {
    var baseId := BaseShowId(date, NormalizeArtistName(artist), venueId);
    if PositiveSequence(sequence) then
      var r := baseId + "-" + NatToString(sequence.value);
      assert r[|baseId| + 1..] == NatToString(sequence.value);
      r
    else baseId
  }

  /** `generate_show_id`: the Python twin, built on the Python normalizer. */
  function GenerateShowIdPy(date: string, artist: string, venueId: string, sequence: Option<int>): (r: string)
    ensures r == GenerateShowId(date, artist, venueId, sequence)
  {
    NormalizersAgree(artist);
    var baseId := BaseShowId(date, NormalizeArtistNamePy(artist), venueId);
    if sequence.Some? && sequence.value > 0 then baseId + "-" + NatToString(sequence.value)
    else baseId
  }

  /** Sequence 1 differs from no sequence exactly by a trailing `-1`. */
  lemma SequenceOneAppendsSuffix(date: string, artist: string, venueId: string)
    ensures GenerateShowId(date, artist, venueId, Some(1)) == GenerateShowId(date, artist, venueId, None) + "-1"
    ensures GenerateShowId(date, artist, venueId, Some(0)) == GenerateShowId(date, artist, venueId, None)
  {
  }

  /** Different positive sequences give different ids. */
  lemma SequencesDistinguishIds(date: string, artist: string, venueId: string, m: int, n: int)
    requires 0 < m && 0 < n && m != n
    ensures GenerateShowId(date, artist, venueId, Some(m)) != GenerateShowId(date, artist, venueId, Some(n))
  {
    var b := BaseShowId(date, NormalizeArtistName(artist), venueId);
    var x := GenerateShowId(date, artist, venueId, Some(m));
    var y := GenerateShowId(date, artist, venueId, Some(n));
    assert x[|b| + 1..] == NatToString(m);
    assert y[|b| + 1..] == NatToString(n);
  }

  // ---------------------------------------------------------------------
  // parseShowId
  // ---------------------------------------------------------------------

  datatype ParsedShowId = ParsedShowId(date: string, artist: string, venueId: string, sequence: Option<nat>)

  /** Where a JavaScript `Array.prototype.slice` bound lands: negative values
      count from the end, and everything is clamped to `[0, len]`. */
  function SliceBound(i: int, len: nat): (b: nat)
    ensures b <= len
  {
    if i < 0 then (if len + i < 0 then 0 else len + i)
    else if i > len then len
    else i
  }

  /** `xs.slice(start, end)`. */
  function JsSlice<T>(xs: seq<T>, start: int, end: int): seq<T> {
    var s := SliceBound(start, |xs|);
    var e := SliceBound(end, |xs|);
    if e <= s then [] else xs[s..e]
  }

  /** `parseShowId`: the first three hyphen-separated fields are the date, a
      trailing all-digit field is the sequence, the five fields before it are
      the venue id, and the fields in between are the artist slug. */
  function ParseShowId(showId: string): (r: Result<ParsedShowId, string>)
    ensures r.Err? <==> CountChar(showId, '-') < 2
  {
    var parts := Split(showId, '-');
    var n := |parts|;
    if n < 3 then Err("Invalid show_id format: " + showId)
    else
      var date := parts[0] + "-" + parts[1] + "-" + parts[2];
      var lastPart := parts[n - 1];
      var hasSequence := AllDigits(lastPart);
      var venueIdStart := if hasSequence then n - 6 else n - 5;
      var venueId := Join(JsSlice(parts, venueIdStart, venueIdStart + 5), '-');
      var artistSlug := Join(JsSlice(parts, 3, venueIdStart), '-');
      Ok(ParsedShowId(date, artistSlug, venueId, if hasSequence then Some(DigitsValue(lastPart)) else None))
  }

  /** How a generated id splits: the date's fields, the slug's, the venue id's,
      then the sequence if one was appended. */
  lemma SplitGenerated(date: string, artist: string, venueId: string, sequence: Option<int>)
    ensures Split(GenerateShowId(date, artist, venueId, sequence), '-')
         == Split(date, '-') + Split(NormalizeArtistName(artist), '-') + Split(venueId, '-')
            + (if PositiveSequence(sequence) then [NatToString(sequence.value)] else [])
  {
    var slug := NormalizeArtistName(artist);
    var baseId := BaseShowId(date, slug, venueId);
    SplitBase(date, slug, venueId);
    if PositiveSequence(sequence) {
      var k := NatToString(sequence.value);
      assert '-' !in k by {
        assert forall i :: 0 <= i < |k| ==> IsDigit(k[i]);
      }
      SplitNoSep(k, '-');
      SplitAround(baseId, k, '-');
      assert GenerateShowId(date, artist, venueId, sequence) == baseId + "-" + k;
    }
  }

  lemma SplitBase(date: string, slug: string, venueId: string)
    ensures Split(BaseShowId(date, slug, venueId), '-')
         == Split(date, '-') + Split(slug, '-') + Split(venueId, '-')
  {
    var tail := slug + "-" + venueId;
    assert BaseShowId(date, slug, venueId) == date + "-" + tail;
    assert Split(tail, '-') == Split(slug, '-') + Split(venueId, '-') by {
      SplitAround(slug, venueId, '-');
    }
    assert Split(date + "-" + tail, '-') == Split(date, '-') + Split(tail, '-') by {
      SplitAround(date, tail, '-');
    }
  }

  /** What `parseShowId` reads from fields laid out as date, slug, venue id and
      optional sequence. */
  lemma ParseFromFields(showId: string, D: seq<string>, S: seq<string>, V: seq<string>, T: seq<string>)
    requires Split(showId, '-') == D + S + V + T
    requires |D| == 3 && |V| == 5
    requires (T == [] && !AllDigits(V[4])) || (|T| == 1 && AllDigits(T[0]))
    ensures ParseShowId(showId)
         == Ok(ParsedShowId(Join(D, '-'), Join(S, '-'), Join(V, '-'),
                            if T == [] then None else Some(DigitsValue(T[0]))))
  {
    var parts := Split(showId, '-');
    var n := |parts|;
    var start := 3 + |S|;
    FieldSlices(parts, D, S, V, T);
    assert start == (if T == [] then n - 5 else n - 6);
    assert parts[n - 1] == (if T == [] then V[4] else T[0]);
    JoinThree(D);
  }

  /** Where the date, slug and venue-id fields sit among the parts. */
  lemma FieldSlices(parts: seq<string>, D: seq<string>, S: seq<string>, V: seq<string>, T: seq<string>)
    requires parts == D + S + V + T
    requires |D| == 3 && |V| == 5
    ensures JsSlice(parts, 3 + |S|, 3 + |S| + 5) == V
    ensures JsSlice(parts, 3, 3 + |S|) == S
    ensures parts[0] == D[0] && parts[1] == D[1] && parts[2] == D[2]
  {
    var start := 3 + |S|;
    var P := D + S;
    var Q := P + V;
    assert parts == Q + T;
    assert parts[start..start + 5] == Q[start..start + 5] == V;
    assert parts[3..start] == Q[3..start] == P[3..start] == S;
  }

  lemma JoinThree(D: seq<string>)
    requires |D| == 3
    ensures Join(D, '-') == D[0] + "-" + D[1] + "-" + D[2]
  {
    assert Join(D[1..], '-') == D[1] + "-" + D[2] by {
      assert D[1..][1..] == [D[2]];
    }
  }

  /** `parseShowId` inverts `generateShowId` when the date has three
      hyphen-free fields, the venue id has five, and the last venue-id field
      cannot be mistaken for a sequence unless a sequence follows it. */
  lemma ParseGenerateRoundTrip(date: string, artist: string, venueId: string, sequence: Option<int>)
    requires |Split(date, '-')| == 3
    requires |Split(venueId, '-')| == 5
    requires PositiveSequence(sequence) || !AllDigits(Split(venueId, '-')[4])
    ensures ParseShowId(GenerateShowId(date, artist, venueId, sequence))
         == Ok(ParsedShowId(date, NormalizeArtistName(artist), venueId,
                            if PositiveSequence(sequence) then Some(sequence.value) else None))
  {
    SplitGenerated(date, artist, venueId, sequence);
    SplitParts(date, '-');
    SplitParts(NormalizeArtistName(artist), '-');
    SplitParts(venueId, '-');
    var T := if PositiveSequence(sequence) then [NatToString(sequence.value)] else [];
    ParseFromFields(GenerateShowId(date, artist, venueId, sequence),
      Split(date, '-'), Split(NormalizeArtistName(artist), '-'), Split(venueId, '-'), T);
  }

  /** The round trip really needs its last condition: when the venue id's
      last field is all digits and no sequence was appended, `parseShowId`
      reads that field back as a sequence. */
  lemma NumericVenueTailMisread(date: string, artist: string, venueId: string)
    requires |Split(date, '-')| == 3
    requires |Split(venueId, '-')| == 5
    requires AllDigits(Split(venueId, '-')[4])
    ensures ParseShowId(GenerateShowId(date, artist, venueId, None)).Ok?
    ensures ParseShowId(GenerateShowId(date, artist, venueId, None)).value.sequence
         == Some(DigitsValue(Split(venueId, '-')[4]))
  {
    SplitGenerated(date, artist, venueId, None);
    var D := Split(date, '-');
    var S := Split(NormalizeArtistName(artist), '-');
    var V := Split(venueId, '-');
    ShiftVenueWindow(D, S, V);
    var k := |S| - 1;
    ParseFromFields(GenerateShowId(date, artist, venueId, None), D, S[..k], [S[k]] + V[..4], [V[4]]);
  }

  /** Reading the fields one position further left: the slug's last field
      joins the venue id, and the venue id's last field becomes the tail. */
  lemma ShiftVenueWindow(D: seq<string>, S: seq<string>, V: seq<string>)
    requires |S| >= 1 && |V| == 5
    ensures D + S + V == D + S[..|S| - 1] + ([S[|S| - 1]] + V[..4]) + [V[4]]
  {
    var k := |S| - 1;
    assert S == S[..k] + [S[k]];
    assert V == V[..4] + [V[4]];
  }

  // ---------------------------------------------------------------------
  // Slugs of typical names
  // ---------------------------------------------------------------------

  predicate IsLowerWord(w: string) {
    |w| > 0 && forall i :: 0 <= i < |w| ==> IsLowerAlnum(w[i])
  }

  /** A run of characters outside `[a-z0-9]` (and outside `A-Z`). */
  predicate IsGap(g: string) {
    |g| > 0 && forall i :: 0 <= i < |g| ==> !IsLowerAlnum(g[i]) && !IsAsciiUpper(g[i])
  }

  /** A lower-case alphanumeric word passes the hyphenation pass unchanged. */
  lemma {:induction false} WordRun(w: string, inRun: bool)
    requires forall i :: 0 <= i < |w| ==> IsLowerAlnum(w[i])
    ensures ReplaceRuns(w, inRun) == w
  {
    if |w| > 0 {
      WordRun(w[1..], false);
    }
  }

  /** A run of characters outside `[a-z0-9]` becomes a single hyphen. */
  lemma {:induction false} GapRun(g: string, inRun: bool)
    requires |g| > 0 && forall i :: 0 <= i < |g| ==> !IsLowerAlnum(g[i])
    ensures ReplaceRuns(g, inRun) == if inRun then [] else ['-']
  {
    if |g| > 1 {
      GapRun(g[1..], true);
    }
  }

  lemma WordThenGap(w: string, g: string, rest: string, inRun: bool)
    requires IsLowerWord(w)
    requires |g| > 0 && forall i :: 0 <= i < |g| ==> !IsLowerAlnum(g[i])
    ensures ReplaceRuns(w + g + rest, inRun) == w + "-" + ReplaceRuns(rest, true)
  {
    var t := g + rest;
    assert w + g + rest == w + t;
    calc {
      ReplaceRuns(w + g + rest, inRun);
      ReplaceRuns(w + t, inRun);
      { ReplaceRunsConcat(w, t, inRun); WordRun(w, inRun); assert w[|w| - 1] == w[|w| - 1]; }
      w + ReplaceRuns(t, false);
      { ReplaceRunsConcat(g, rest, false); GapRun(g, false); assert !IsLowerAlnum(g[|g| - 1]); }
      w + ("-" + ReplaceRuns(rest, true));
    }
  }

  /** A single lower-case word is its own slug ("phish"). */
  lemma WordSlug(w: string)
    requires IsLowerWord(w)
    ensures NormalizeArtistName(w) == w
    ensures NormalizeArtistNamePy(w) == w
  {
    assert IsArtistSlug(w);
    NormalizeFixesSlug(w);
    NormalizersAgree(w);
  }

  /** Two words separated by spaces or punctuation become two words joined by
      one hyphen ("trey anastasio", "ac/dc", "dead & company"). */
  lemma TwoWordSlug(w1: string, g: string, w2: string)
    requires IsLowerWord(w1) && IsGap(g) && IsLowerWord(w2)
    ensures NormalizeArtistName(w1 + g + w2) == w1 + "-" + w2
    ensures NormalizeArtistNamePy(w1 + g + w2) == w1 + "-" + w2
  {
    var x := w1 + g + w2;
    NormalizersAgree(x);
    TwoWordLower(w1, g, w2);
    TwoWordHyphenate(w1, g, w2);
  }

  lemma TwoWordLower(w1: string, g: string, w2: string)
    requires IsLowerWord(w1) && IsGap(g) && IsLowerWord(w2)
    ensures Lower(w1 + g + w2) == w1 + g + w2
  {
    assert w1 + g + w2 == w1 + (g + w2);
    LowerAppend(w1, g + w2);
    LowerAppend(g, w2);
    LowerNoop(w1);
    LowerNoop(g);
    LowerNoop(w2);
  }

  lemma TwoWordHyphenate(w1: string, g: string, w2: string)
    requires IsLowerWord(w1) && IsGap(g) && IsLowerWord(w2)
    ensures Hyphenate(w1 + g + w2) == w1 + "-" + w2
  {
    WordThenGap(w1, g, w2, false);
    WordRun(w2, true);
    var r := w1 + "-" + w2;
    assert r[0] == w1[0] && r[|r| - 1] == w2[|w2| - 1];
    assert StripOneHyphen(r) == r;
  }

  /** Punctuation after the last word leaves no trailing hyphen ("moe."). */
  lemma TrailingPunctuationDropped(w: string, g: string)
    requires IsLowerWord(w) && IsGap(g)
    ensures NormalizeArtistName(w + g) == w
    ensures NormalizeArtistNamePy(w + g) == w
  {
    NormalizersAgree(w + g);
    LowerAppend(w, g);
    LowerNoop(w);
    LowerNoop(g);
    HyphenateDropsSuffix(w, g);
    WordSlug(w);
    NormalizersAgree(w);
    LowerNoop(w);
  }
}
