/**
 * The heuristic cut of the MD&A ("Management's Discussion and Analysis")
 * section out of a filing's HTML, after the filing has been fetched: quote
 * normalisation, tag stripping, the start- and end-marker search on the
 * lower-cased text, whitespace collapsing and HTML escaping.
 */
module Mda {
  import opened Wrappers
  import opened Text
  import SecClient

  // ---------------------------------------------------------------------------
  // Quote normalisation

  predicate IsCurlySingle(c: char) {
    c == '\U{2018}' || c == '\U{2019}'
  }

  predicate IsCurlyDouble(c: char) {
    c == '\U{201C}' || c == '\U{201D}'
  }

  function StraightQuote(c: char): char {
    if IsCurlySingle(c) then '\'' else if IsCurlyDouble(c) then '"' else c
  }

  /** The four chained `replace` calls: curly single quotes become `'`, curly double quotes `"`. */
  function NormalizeQuotes(s: string): (r: string)
    ensures |r| == |s|
    ensures forall i :: 0 <= i < |r| ==> !IsCurlySingle(r[i]) && !IsCurlyDouble(r[i])
    ensures forall i :: 0 <= i < |s| && IsCurlySingle(s[i]) ==> r[i] == '\''
    ensures forall i :: 0 <= i < |s| && IsCurlyDouble(s[i]) ==> r[i] == '"'
    ensures forall i :: 0 <= i < |s| && !IsCurlySingle(s[i]) && !IsCurlyDouble(s[i]) ==> r[i] == s[i]
  {
    seq(|s|, i requires 0 <= i < |s| => StraightQuote(s[i]))
  }

  // ---------------------------------------------------------------------------
  // Tag stripping: `re.sub(r"<[^>]+>", " ", s)`

  /**
   * The pattern matches at `i`: a '<', at least one character that is not
   * '>', then a '>'. Equivalently the first '>' after the '<' is not the
   * character right after it.
   */
  predicate TagAt(s: string, i: int) {
    0 <= i && i + 1 < |s| && s[i] == '<' && s[i + 1] != '>' && '>' in s[i + 2..]
  }

  predicate NoTags(s: string) {
    forall i :: 0 <= i < |s| ==> !TagAt(s, i)
  }

  /** The index of the first '>' at or after `j`. */
  function CloseAt(s: string, j: nat): (r: nat)
    requires j <= |s| && '>' in s[j..]
    ensures j <= r < |s| && s[r] == '>'
    ensures forall k :: j <= k < r ==> s[k] != '>'
    decreases |s| - j
  {
    if s[j] == '>' then j
    else
      assert s[j..] == [s[j]] + s[j + 1..];
      CloseAt(s, j + 1)
  }

  /** Scanning left to right, every match is replaced by one space and the scan resumes after it. */
  function StripTags(s: string): (r: string)
    ensures |r| <= |s|
    ensures r == [] <==> s == []
    decreases |s|
  {
    if s == [] then []
    else if TagAt(s, 0) then " " + StripTags(s[CloseAt(s, 2) + 1..])
    else [s[0]] + StripTags(s[1..])
  }

  /** Every character of the result is a replacement space or a character of the input. */
  lemma {:induction false} StripTagsChars(s: string)
    ensures forall c :: c in StripTags(s) ==> c == ' ' || c in s
  {
    if s != [] {
      if TagAt(s, 0) {
        StripTagsChars(s[CloseAt(s, 2) + 1..]);
      } else {
        StripTagsChars(s[1..]);
      }
    }
  }

  /** A character put in front of a text without matches starts no match of its own unless a '>' follows it. */
  lemma {:induction false} NoTagsPrepend(c: char, rt: string)
    requires NoTags(rt)
    requires c == '<' ==> rt == [] || rt[0] == '>' || '>' !in rt
    ensures NoTags([c] + rt)
  {
    var r := [c] + rt;
    forall i | 0 <= i < |r| ensures !TagAt(r, i) {
      if i == 0 && c == '<' && |r| > 1 && rt[0] != '>' {
        assert r[2..] == rt[1..];
      }
      if 1 <= i && i + 1 < |r| {
        assert r[i + 2..] == rt[i + 1..];
        assert !TagAt(rt, i - 1);
      }
    }
  }

  /** No match of the pattern is left in the result. */
  lemma {:induction false} StripTagsNoTags(s: string)
    ensures NoTags(StripTags(s))
  {
    if s != [] {
      if TagAt(s, 0) {
        var t := s[CloseAt(s, 2) + 1..];
        StripTagsNoTags(t);
        NoTagsPrepend(' ', StripTags(t));
      } else {
        StripTagsNoTags(s[1..]);
        StripTagsUntaggedHead(s);
        NoTagsPrepend(s[0], StripTags(s[1..]));
      }
    }
  }

  /**
   * When the text does not start with a match, its first character is not
   * the start of one in the result either: if it is a '<', either a '>'
   * follows it at once or no '>' follows it at all.
   */
  lemma {:induction false} StripTagsUntaggedHead(s: string)
    requires s != [] && !TagAt(s, 0)
    ensures var rt := StripTags(s[1..]);
      s[0] == '<' ==> rt == [] || rt[0] == '>' || '>' !in rt
  {
    var t := s[1..];
    var rt := StripTags(t);
    if s[0] == '<' && t != [] {
      if s[1] == '>' {
        assert !TagAt(t, 0);
        assert rt == [t[0]] + StripTags(t[1..]);
      } else {
        assert '>' !in t by {
          assert t == [s[1]] + s[2..];
        }
        StripTagsChars(t);
      }
    }
  }

  /** A text with no match is left as it is. */
  lemma {:induction false} StripTagsKeepsUntagged(s: string)
    requires NoTags(s)
    ensures StripTags(s) == s
  {
    if s != [] {
      assert !TagAt(s, 0);
      var t := s[1..];
      forall i | 0 <= i < |t| ensures !TagAt(t, i) {
        if TagAt(t, i) {
          assert s[i + 3..] == t[i + 2..];
          assert TagAt(s, i + 1);
        }
      }
      StripTagsKeepsUntagged(t);
    }
  }

  /** Text with no '<' is copied unchanged in front of whatever follows it. */
  lemma {:induction false} StripTagsPlainPrefix(u: string, v: string)
    requires '<' !in u
    ensures StripTags(u + v) == u + StripTags(v)
  {
    if u == [] {
      assert u + v == v;
    } else {
      var s := u + v;
      assert s[0] == u[0] && !TagAt(s, 0);
      assert s[1..] == u[1..] + v;
      StripTagsPlainPrefix(u[1..], v);
      assert [u[0]] + (u[1..] + StripTags(v)) == u + StripTags(v);
    }
  }

  /** A '<', a non-empty run without '>', then a '>': the whole tag becomes one space. */
  lemma {:induction false} StripTagsTag(w: string, v: string)
    requires w != [] && '>' !in w
    ensures StripTags("<" + w + ">" + v) == " " + StripTags(v)
  {
    var s := "<" + w + ">" + v;
    var e := |w| + 1;
    assert s[1] == w[0] && s[e] == '>';
    assert forall k :: 1 <= k < e ==> s[k] == w[k - 1];
    assert s[2..][e - 2] == '>';
    assert TagAt(s, 0);
    assert CloseAt(s, 2) == e;
    assert s[e + 1..] == v;
  }

  /** A '<' that no '>' follows is kept, and the scan goes on after it. */
  lemma {:induction false} StripTagsUnclosed(w: string)
    requires '>' !in w
    ensures StripTags("<" + w) == "<" + StripTags(w)
  {
    var s := "<" + w;
    if w != [] {
      assert s[2..] == w[1..];
      assert w == [w[0]] + w[1..];
    }
    assert !TagAt(s, 0);
    assert s[1..] == w;
  }

  /** In "<>" the '<' is kept: the pattern needs at least one character between the brackets. */
  lemma {:induction false} StripTagsEmptyBrackets(v: string)
    ensures StripTags("<>" + v) == "<" + StripTags(">" + v)
  {
    var s := "<>" + v;
    assert s[1] == '>' && !TagAt(s, 0);
    assert s[1..] == ">" + v;
  }

  /** Stripping tags twice is stripping them once. */
  lemma {:induction false} StripTagsIdempotent(s: string)
    ensures StripTags(StripTags(s)) == StripTags(s)
  {
    StripTagsNoTags(s);
    StripTagsKeepsUntagged(StripTags(s));
  }

  // ---------------------------------------------------------------------------
  // Marker search

  const StartMarkers: seq<string> := [
    "item 2. management's discussion and analysis",
    "item 7. management's discussion and analysis",
    "management's discussion and analysis of financial condition and results of operations"
  ]

  const EndMarkers: seq<string> := [
    "item 3.",
    "item 4.",
    "item 7a.",
    "item 8.",
    "quantitative and qualitative disclosures about market risk"
  ]

  /** How far past the start the end-marker search begins, to skip the heading. */
  const HeadingSkip: nat := 50

  /** The length of the cut when no end marker is found. */
  const FallbackLength: nat := 40000

  /** The list position of the first marker that occurs anywhere in `text`, or `|markers|`. */
  function FirstFound(text: string, markers: seq<string>): (k: nat)
    ensures k <= |markers|
    ensures k < |markers| ==> Find(text, markers[k], 0) != -1
    ensures forall j :: 0 <= j < k ==> Find(text, markers[j], 0) == -1
  {
    if markers == [] then 0
    else if Find(text, markers[0], 0) != -1 then 0
    else 1 + FirstFound(text, markers[1..])
  }

  /**
   * The start of the section: where the first start marker IN LIST ORDER that
   * occurs at all occurs first; -1 when none occurs. An earlier occurrence of
   * a marker later in the list does not win.
   */
  function StartIndex(lower: string): (r: int)
    ensures -1 <= r <= |lower|
    ensures r == -1 <==> forall j :: 0 <= j < |StartMarkers| ==> Find(lower, StartMarkers[j], 0) == -1
    ensures r != -1 ==>
      exists k :: 0 <= k < |StartMarkers| && OccursAt(lower, StartMarkers[k], r) &&
        (forall j :: 0 <= j < k ==> Find(lower, StartMarkers[j], 0) == -1) &&
        (forall i :: 0 <= i < r ==> !OccursAt(lower, StartMarkers[k], i))
  {
    var k := FirstFound(lower, StartMarkers);
    if k < |StartMarkers| then Find(lower, StartMarkers[k], 0) else -1
  }

  /** The loop over the start markers, leaving at the first one found. */
  method FindStart(lower: string) returns (startIdx: int)
    ensures startIdx == StartIndex(lower)
  {
    startIdx := -1;
    var n := 0;
    while n < |StartMarkers|
      invariant 0 <= n <= |StartMarkers|
      invariant forall j :: 0 <= j < n ==> Find(lower, StartMarkers[j], 0) == -1
    {
      var idx := Find(lower, StartMarkers[n], 0);
      if idx != -1 {
        startIdx := idx;
        var k := FirstFound(lower, StartMarkers);
        assert !(k < n) && !(n < k);
        return;
      }
      n := n + 1;
    }
  }

  /** Some marker of the list occurs at `i`. */
  predicate AnyAt(text: string, markers: seq<string>, i: int) {
    exists k :: 0 <= k < |markers| && OccursAt(text, markers[k], i)
  }

  /** The positions `find(m, from)` gives for the markers that are found, in list order. */
  function Candidates(text: string, markers: seq<string>, from: nat): (r: seq<int>)
    ensures forall p :: p in r ==> from <= p <= |text|
  {
    if markers == [] then []
    else
      var idx := Find(text, markers[|markers| - 1], from);
      Candidates(text, markers[..|markers| - 1], from) + (if idx != -1 then [idx] else [])
  }

  /** Each candidate is an occurrence of some marker. */
  lemma {:induction false} CandidatesSound(text: string, markers: seq<string>, from: nat)
    ensures forall p :: p in Candidates(text, markers, from) ==> AnyAt(text, markers, p)
  {
    if markers != [] {
      var prefix := markers[..|markers| - 1];
      var last := |markers| - 1;
      var c := Candidates(text, prefix, from);
      var idx := Find(text, markers[last], from);
      CandidatesSound(text, prefix, from);
      assert Candidates(text, markers, from) == c + (if idx != -1 then [idx] else []);
      forall p | p in Candidates(text, markers, from) ensures AnyAt(text, markers, p) {
        if p in c {
          var k :| 0 <= k < |prefix| && OccursAt(text, prefix[k], p);
          assert markers[k] == prefix[k];
        } else {
          assert p == idx;
          assert OccursAt(text, markers[last], p);
        }
      }
    }
  }

  /** Every marker found contributes its position. */
  lemma {:induction false} CandidatesComplete(text: string, markers: seq<string>, from: nat)
    ensures forall k :: 0 <= k < |markers| && Find(text, markers[k], from) != -1 ==>
      Find(text, markers[k], from) in Candidates(text, markers, from)
  {
    if markers != [] {
      var prefix := markers[..|markers| - 1];
      var last := |markers| - 1;
      var c := Candidates(text, prefix, from);
      var idx := Find(text, markers[last], from);
      CandidatesComplete(text, prefix, from);
      assert Candidates(text, markers, from) == c + (if idx != -1 then [idx] else []);
      forall k | 0 <= k < |markers| && Find(text, markers[k], from) != -1
        ensures Find(text, markers[k], from) in Candidates(text, markers, from)
      {
        if k < last {
          assert markers[k] == prefix[k];
        }
      }
    }
  }

  /** Each candidate is an occurrence of some marker, and every marker found contributes its position. */
  lemma {:induction false} CandidatesSpec(text: string, markers: seq<string>, from: nat)
    ensures forall p :: p in Candidates(text, markers, from) ==> AnyAt(text, markers, p)
    ensures forall k :: 0 <= k < |markers| && Find(text, markers[k], from) != -1 ==>
      Find(text, markers[k], from) in Candidates(text, markers, from)
  {
    CandidatesSound(text, markers, from);
    CandidatesComplete(text, markers, from);
  }

  function MinOf(s: seq<int>): (r: int)
    requires s != []
    ensures r in s && forall x :: x in s ==> r <= x
  {
    if |s| == 1 then s[0]
    else
      var m := MinOf(s[1..]);
      assert forall x :: x in s ==> x == s[0] || x in s[1..];
      if s[0] <= m then s[0] else m
  }

  /** The end of the section: the smallest candidate, or the fallback window. */
  function EndIndex(lower: string, start: nat): (r: int)
    requires start <= |lower|
    ensures start <= r <= |lower|
  {
    var c := Candidates(lower, EndMarkers, start + HeadingSkip);
    if c != [] then MinOf(c) else Min(|lower|, start + FallbackLength)
  }

  function Min(a: int, b: int): int {
    if a <= b then a else b
  }

  /** With candidates, the smallest one is the first position from `from` on where some marker occurs. */
  lemma {:induction false} CandidatesEarliest(text: string, markers: seq<string>, from: nat)
    requires Candidates(text, markers, from) != []
    ensures AnyAt(text, markers, MinOf(Candidates(text, markers, from)))
    ensures forall i :: from <= i < MinOf(Candidates(text, markers, from)) ==> !AnyAt(text, markers, i)
  {
    var c := Candidates(text, markers, from);
    CandidatesSpec(text, markers, from);
    var e := MinOf(c);
    forall i | from <= i < e ensures !AnyAt(text, markers, i) {
      forall k | 0 <= k < |markers| ensures !OccursAt(text, markers[k], i) {
        var f := Find(text, markers[k], from);
        if f != -1 {
          assert f in c;
        }
      }
    }
  }

  /** There are no candidates exactly when no marker occurs from `from` on. */
  lemma {:induction false} CandidatesEmpty(text: string, markers: seq<string>, from: nat)
    ensures Candidates(text, markers, from) == [] <==> forall i :: from <= i ==> !AnyAt(text, markers, i)
  {
    var c := Candidates(text, markers, from);
    CandidatesSpec(text, markers, from);
    if c == [] {
      forall i, k | from <= i && 0 <= k < |markers| ensures !OccursAt(text, markers[k], i) {
        assert Find(text, markers[k], from) !in c;
      }
    } else {
      assert c[0] in c;
    }
  }

  /**
   * When some end marker occurs at or after `start + 50`, the end is the
   * first position from there where any end marker occurs; otherwise it is
   * the fallback window, capped at the length of the text.
   */
  lemma {:induction false} EndIndexEarliest(lower: string, start: nat)
    requires start <= |lower|
    ensures (exists i :: start + HeadingSkip <= i && AnyAt(lower, EndMarkers, i)) ==>
      AnyAt(lower, EndMarkers, EndIndex(lower, start)) &&
      forall i :: start + HeadingSkip <= i < EndIndex(lower, start) ==> !AnyAt(lower, EndMarkers, i)
    ensures (forall i :: start + HeadingSkip <= i ==> !AnyAt(lower, EndMarkers, i)) ==>
      EndIndex(lower, start) == Min(|lower|, start + FallbackLength)
  {
    var from := start + HeadingSkip;
    CandidatesEmpty(lower, EndMarkers, from);
    if Candidates(lower, EndMarkers, from) != [] {
      CandidatesEarliest(lower, EndMarkers, from);
    }
  }

  /** One more marker of the list adds its position, if found, at the end. */
  lemma {:induction false} CandidatesSnoc(text: string, markers: seq<string>, n: nat, from: nat)
    requires n < |markers|
    ensures var idx := Find(text, markers[n], from);
      Candidates(text, markers[..n + 1], from) == Candidates(text, markers[..n], from) + (if idx != -1 then [idx] else [])
  {
    assert markers[..n + 1][..n] == markers[..n];
  }

  /** The loop collecting the end candidates, then `min` or the fallback. */
  method FindEnd(lower: string, startIdx: nat) returns (endIdx: int)
    requires startIdx <= |lower|
    ensures endIdx == EndIndex(lower, startIdx)
  {
    var searchFrom := startIdx + HeadingSkip;
    var candidates: seq<int> := [];
    var n := 0;
    while n < |EndMarkers|
      invariant 0 <= n <= |EndMarkers|
      invariant candidates == Candidates(lower, EndMarkers[..n], searchFrom)
    {
      var idx := Find(lower, EndMarkers[n], searchFrom);
      CandidatesSnoc(lower, EndMarkers, n, searchFrom);
      if idx != -1 {
        candidates := candidates + [idx];
      }
      n := n + 1;
    }
    assert EndMarkers[..n] == EndMarkers;
    if candidates != [] {
      endIdx := MinOf(candidates);
    } else {
      endIdx := Min(|lower|, startIdx + FallbackLength);
    }
  }

  // ---------------------------------------------------------------------------
  // Whitespace: `re.sub(r"\s+", " ", s).strip()`

  /** Python's `str.isspace` on one character, which is also what `\s` matches in a `str` pattern. */
  predicate IsSpace(c: char) {
    c == ' ' || '\t' <= c <= '\r' || '\U{1C}' <= c <= '\U{1F}' || c == '\U{85}' || c == '\U{A0}' ||
    c == '\U{1680}' || '\U{2000}' <= c <= '\U{200A}' || c == '\U{2028}' || c == '\U{2029}' ||
    c == '\U{202F}' || c == '\U{205F}' || c == '\U{3000}'
  }

  /** The characters of `s` that are not whitespace, in order. */
  function NonSpace(s: string): string {
    if s == [] then [] else (if IsSpace(s[0]) then [] else [s[0]]) + NonSpace(s[1..])
  }

  /** Drop leading whitespace. */
  function SkipSpaces(s: string): (r: string)
    ensures |r| <= |s| && r == s[|s| - |r|..]
    ensures r == [] || !IsSpace(r[0])
    ensures forall i :: 0 <= i < |s| - |r| ==> IsSpace(s[i])
  {
    if s != [] && IsSpace(s[0]) then SkipSpaces(s[1..]) else s
  }

  /** Drop trailing whitespace. */
  function TrimEnd(s: string): (r: string)
    ensures |r| <= |s| && r == s[..|r|]
    ensures r == [] || !IsSpace(r[|r| - 1])
    ensures forall i :: |r| <= i < |s| ==> IsSpace(s[i])
  {
    if s != [] && IsSpace(s[|s| - 1]) then TrimEnd(s[..|s| - 1]) else s
  }

  /** Replace every maximal run of whitespace by one space. */
  function Squeeze(s: string): (r: string)
    ensures s != [] && !IsSpace(s[0]) ==> r != [] && r[0] == s[0]
    decreases |s|
  {
    if s == [] then []
    else if IsSpace(s[0]) then " " + Squeeze(SkipSpaces(s[1..]))
    else [s[0]] + Squeeze(s[1..])
  }

  lemma {:induction false} NonSpaceAppend(a: string, b: string)
    ensures NonSpace(a + b) == NonSpace(a) + NonSpace(b)
  {
    if a == [] {
      assert a + b == b;
    } else {
      assert (a + b)[1..] == a[1..] + b;
      NonSpaceAppend(a[1..], b);
    }
  }

  lemma {:induction false} NonSpaceAllSpace(s: string)
    requires forall i :: 0 <= i < |s| ==> IsSpace(s[i])
    ensures NonSpace(s) == []
  {
    if s != [] {
      NonSpaceAllSpace(s[1..]);
    }
  }

  lemma {:induction false} SkipSpacesNonSpace(s: string)
    ensures NonSpace(SkipSpaces(s)) == NonSpace(s)
  {
    var a := SkipSpaces(s);
    var lead := s[..|s| - |a|];
    assert s == lead + a;
    NonSpaceAllSpace(lead);
    NonSpaceAppend(lead, a);
  }

  lemma {:induction false} TrimEndNonSpace(s: string)
    ensures NonSpace(TrimEnd(s)) == NonSpace(s)
  {
    var b := TrimEnd(s);
    var tail := s[|b|..];
    assert s == b + tail;
    NonSpaceAllSpace(tail);
    NonSpaceAppend(b, tail);
  }

  /** Removing whitespace from either end keeps the other characters. */
  lemma {:induction false} TrimNonSpace(s: string)
    ensures NonSpace(SkipSpaces(s)) == NonSpace(s)
    ensures NonSpace(TrimEnd(s)) == NonSpace(s)
  {
    SkipSpacesNonSpace(s);
    TrimEndNonSpace(s);
  }

  /** Collapsing runs keeps every character that is not whitespace. */
  lemma {:induction false} SqueezeNonSpace(s: string)
    ensures NonSpace(Squeeze(s)) == NonSpace(s)
    decreases |s|
  {
    if s != [] {
      if IsSpace(s[0]) {
        var t := SkipSpaces(s[1..]);
        SqueezeNonSpace(t);
        TrimNonSpace(s[1..]);
        assert (" " + Squeeze(t))[1..] == Squeeze(t);
      } else {
        SqueezeNonSpace(s[1..]);
        assert ([s[0]] + Squeeze(s[1..]))[1..] == Squeeze(s[1..]);
      }
    }
  }

  /** Every whitespace character is a plain space followed by a character that is not whitespace. */
  predicate SingleSpaced(r: string) {
    forall i :: 0 <= i < |r| && IsSpace(r[i]) ==> r[i] == ' ' && (i + 1 < |r| ==> !IsSpace(r[i + 1]))
  }

  lemma {:induction false} SingleSpacedCons(c: char, r: string)
    requires SingleSpaced(r)
    requires IsSpace(c) ==> c == ' ' && (r == [] || !IsSpace(r[0]))
    ensures SingleSpaced([c] + r)
  {
    var cr := [c] + r;
    forall i | 0 <= i < |cr| && IsSpace(cr[i])
      ensures cr[i] == ' ' && (i + 1 < |cr| ==> !IsSpace(cr[i + 1]))
    {
      if i > 0 {
        assert cr[i] == r[i - 1];
        if i + 1 < |cr| {
          assert cr[i + 1] == r[i];
        }
      }
    }
  }

  lemma {:induction false} SqueezeSingleSpaced(s: string)
    ensures SingleSpaced(Squeeze(s))
    decreases |s|
  {
    if s != [] {
      if IsSpace(s[0]) {
        var t := SkipSpaces(s[1..]);
        SqueezeSingleSpaced(t);
        SingleSpacedCons(' ', Squeeze(t));
      } else {
        SqueezeSingleSpaced(s[1..]);
        SingleSpacedCons(s[0], Squeeze(s[1..]));
      }
    }
  }

  /** The whole clean-up: collapse runs, then strip both ends. */
  function CollapseWhitespace(s: string): string {
    TrimEnd(SkipSpaces(Squeeze(s)))
  }

  /** Cleaned text: single spaces only, and none at either end. */
  predicate Tidy(r: string) {
    SingleSpaced(r) && (r != [] ==> !IsSpace(r[0]) && !IsSpace(r[|r| - 1]))
  }

  /**
   * The clean-up keeps every character that is not whitespace, in order, and
   * leaves only single spaces between them; it is empty exactly when the
   * input is all whitespace.
   */
  lemma {:induction false} CollapseWhitespaceSpec(s: string)
    ensures Tidy(CollapseWhitespace(s))
    ensures NonSpace(CollapseWhitespace(s)) == NonSpace(s)
    ensures CollapseWhitespace(s) == [] <==> NonSpace(s) == []
  {
    CollapseTidy(s);
    var q := Squeeze(s);
    SqueezeNonSpace(s);
    TrimNonSpace(q);
    TrimNonSpace(SkipSpaces(q));
    var r := CollapseWhitespace(s);
    if r != [] {
      assert NonSpace(r) == [r[0]] + NonSpace(r[1..]);
    }
  }

  lemma {:induction false} CollapseTidy(s: string)
    ensures Tidy(CollapseWhitespace(s))
  {
    var q := Squeeze(s);
    SqueezeSingleSpaced(s);
    var a := SkipSpaces(q);
    SkipSpacesSingleSpaced(q);
    var r := TrimEnd(a);
    TrimEndSingleSpaced(a);
    TrimEndKeepsFirst(a);
  }

  /** Leading whitespace followed by a word: skipping it leaves exactly the word and what follows. */
  lemma {:induction false} SkipSpacesRun(w: string, v: string)
    requires forall i :: 0 <= i < |w| ==> IsSpace(w[i])
    requires v == [] || !IsSpace(v[0])
    ensures SkipSpaces(w + v) == v
  {
    if w == [] {
      assert w + v == v;
    } else {
      assert (w + v)[0] == w[0];
      assert (w + v)[1..] == w[1..] + v;
      SkipSpacesRun(w[1..], v);
    }
  }

  /** When `a` ends in a non-space character, skipping leading whitespace never reaches past `a`. */
  lemma {:induction false} SkipSpacesAppend(a: string, b: string)
    requires a != [] && !IsSpace(a[|a| - 1])
    ensures SkipSpaces(a + b) == SkipSpaces(a) + b
  {
    assert (a + b)[0] == a[0];
    if IsSpace(a[0]) {
      var t := a[1..];
      assert t != [] && t[|t| - 1] == a[|a| - 1];
      assert (a + b)[1..] == t + b;
      SkipSpacesAppend(t, b);
    }
  }

  /** A text without whitespace is left as it is by the collapse of runs. */
  lemma {:induction false} SqueezeWord(u: string)
    requires forall i :: 0 <= i < |u| ==> !IsSpace(u[i])
    ensures Squeeze(u) == u
  {
    if u != [] {
      SqueezeWord(u[1..]);
      assert u == [u[0]] + u[1..];
    }
  }

  /** A non-empty whitespace run before a word becomes exactly one space. */
  lemma {:induction false} SqueezeRun(w: string, v: string)
    requires w != [] && forall i :: 0 <= i < |w| ==> IsSpace(w[i])
    requires v == [] || !IsSpace(v[0])
    ensures Squeeze(w + v) == " " + Squeeze(v)
  {
    assert (w + v)[0] == w[0];
    assert (w + v)[1..] == w[1..] + v;
    SkipSpacesRun(w[1..], v);
  }

  /** Runs never cross a boundary after a non-space character: the collapse works piece by piece. */
  lemma {:induction false} SqueezeAppend(a: string, b: string)
    requires a == [] || !IsSpace(a[|a| - 1])
    ensures Squeeze(a + b) == Squeeze(a) + Squeeze(b)
    decreases |a|
  {
    if a == [] {
      assert a + b == b;
    } else {
      var t := a[1..];
      SqueezeStep(a, b);
      if !IsSpace(a[0]) {
        SqueezeAppend(t, b);
        AppendAssoc([a[0]], Squeeze(t), Squeeze(b));
      } else {
        LastOfTail(a);
        SkipSpacesKeepsLast(t);
        var k := SkipSpaces(t);
        SkipSpacesAppend(t, b);
        SqueezeAppend(k, b);
        AppendAssoc(" ", Squeeze(k), Squeeze(b));
      }
    }
  }

  lemma AppendAssoc(x: string, y: string, z: string)
    ensures x + (y + z) == (x + y) + z
  {
  }

  /** One step of the collapse on a non-empty first piece. */
  lemma {:induction false} SqueezeStep(a: string, b: string)
    requires a != []
    ensures IsSpace(a[0]) ==> Squeeze(a + b) == " " + Squeeze(SkipSpaces(a[1..] + b))
    ensures !IsSpace(a[0]) ==> Squeeze(a + b) == [a[0]] + Squeeze(a[1..] + b)
  {
    assert (a + b)[0] == a[0];
    assert (a + b)[1..] == a[1..] + b;
  }

  /** A text that starts with whitespace and ends without it keeps its last character in its tail. */
  lemma {:induction false} LastOfTail(a: string)
    requires a != [] && IsSpace(a[0]) && !IsSpace(a[|a| - 1])
    ensures a[1..] != [] && a[1..][|a[1..]| - 1] == a[|a| - 1]
  {
  }

  /** Skipping leading whitespace keeps a final non-space character. */
  lemma {:induction false} SkipSpacesKeepsLast(t: string)
    requires t != [] && !IsSpace(t[|t| - 1])
    ensures SkipSpaces(t) != [] && SkipSpaces(t)[|SkipSpaces(t)| - 1] == t[|t| - 1]
  {
  }

  /** A text ending in a non-space character keeps that character last. */
  lemma {:induction false} SqueezeLast(u: string)
    requires u != [] && !IsSpace(u[|u| - 1])
    ensures Squeeze(u) != [] && Squeeze(u)[|Squeeze(u)| - 1] == u[|u| - 1]
    decreases |u|
  {
    var t := u[1..];
    assert u + [] == u;
    SqueezeStep(u, []);
    assert t + [] == t;
    if !IsSpace(u[0]) {
      if t != [] {
        assert t[|t| - 1] == u[|u| - 1];
        SqueezeLast(t);
      }
    } else {
      LastOfTail(u);
      SkipSpacesKeepsLast(t);
      SqueezeLast(SkipSpaces(t));
    }
  }

  /** Trailing whitespace after a word never reaches back before the word. */
  lemma {:induction false} TrimEndAppend(p: string, q: string)
    requires q != [] && !IsSpace(q[0])
    ensures TrimEnd(p + q) == p + TrimEnd(q)
    decreases |q|
  {
    var pq := p + q;
    assert pq[|pq| - 1] == q[|q| - 1];
    if IsSpace(q[|q| - 1]) {
      var q' := q[..|q| - 1];
      assert |q| > 1;
      assert pq[..|pq| - 1] == p + q';
      TrimEndAppend(p, q');
    }
  }

  /** A word alone is left as it is by the whole clean-up. */
  lemma {:induction false} CollapseWord(u: string)
    requires forall i :: 0 <= i < |u| ==> !IsSpace(u[i])
    ensures CollapseWhitespace(u) == u
  {
    SqueezeWord(u);
    if u != [] {
      assert !IsSpace(u[0]) && !IsSpace(u[|u| - 1]);
      assert SkipSpaces(u) == u;
      assert TrimEnd(u) == u;
    }
  }

  /**
   * Two pieces joined by a whitespace run, the first ending and the second
   * starting with a non-space character: the run becomes exactly one space
   * between the two cleaned pieces, so word breaks survive.
   */
  lemma {:induction false} CollapseJoin(u: string, w: string, v: string)
    requires u != [] && !IsSpace(u[|u| - 1])
    requires w != [] && forall i :: 0 <= i < |w| ==> IsSpace(w[i])
    requires v != [] && !IsSpace(v[0])
    ensures CollapseWhitespace(u + w + v) == CollapseWhitespace(u) + " " + CollapseWhitespace(v)
  {
    var x := Squeeze(u);
    var sv := Squeeze(v);
    SqueezeRun(w, v);
    AppendAssoc(u, w, v);
    SqueezeAppend(u, w + v);
    SqueezeLast(u);
    SkipSpacesAppend(x, " " + sv);
    SkipSpacesKeepsLast(x);
    var a := SkipSpaces(x);
    AppendAssoc(a, " ", sv);
    TrimEndAppend(a + " ", sv);
    LeadingWord(sv);
    TrailingWord(a);
  }

  /** A text that starts with a non-space character has nothing to skip. */
  lemma {:induction false} LeadingWord(s: string)
    requires s != [] && !IsSpace(s[0])
    ensures SkipSpaces(s) == s
  {
  }

  /** A text that ends with a non-space character has nothing to trim. */
  lemma {:induction false} TrailingWord(s: string)
    requires s != [] && !IsSpace(s[|s| - 1])
    ensures TrimEnd(s) == s
  {
  }

  lemma {:induction false} SkipSpacesSingleSpaced(q: string)
    requires SingleSpaced(q)
    ensures SingleSpaced(SkipSpaces(q))
  {
    var a := SkipSpaces(q);
    var n := |q| - |a|;
    SingleSpacedSlice(q, n, |q|);
    assert q[n..|q|] == q[n..];
  }

  lemma {:induction false} TrimEndSingleSpaced(a: string)
    requires SingleSpaced(a)
    ensures SingleSpaced(TrimEnd(a))
  {
    var r := TrimEnd(a);
    SingleSpacedSlice(a, 0, |r|);
    assert a[0..|r|] == r;
  }

  lemma {:induction false} TrimEndKeepsFirst(a: string)
    requires a == [] || !IsSpace(a[0])
    ensures TrimEnd(a) == [] || !IsSpace(TrimEnd(a)[0])
  {
    var r := TrimEnd(a);
    if r != [] {
      assert r[0] == a[0];
    }
  }

  lemma {:induction false} SingleSpacedSlice(q: string, lo: nat, hi: nat)
    requires SingleSpaced(q) && lo <= hi <= |q|
    ensures SingleSpaced(q[lo..hi])
  {
    var a := q[lo..hi];
    forall i | 0 <= i < |a| && IsSpace(a[i])
      ensures a[i] == ' ' && (i + 1 < |a| ==> !IsSpace(a[i + 1]))
    {
      assert a[i] == q[lo + i];
      assert i + 1 < |a| ==> a[i + 1] == q[lo + i + 1];
    }
  }

  // ---------------------------------------------------------------------------
  // HTML escaping: `html.escape(s)` with its default `quote=True`

  function EscapeChar(c: char): string {
    if c == '&' then "&amp;"
    else if c == '<' then "&lt;"
    else if c == '>' then "&gt;"
    else if c == '"' then "&quot;"
    else if c == '\'' then "&#x27;"
    else [c]
  }

  function HtmlEscape(s: string): (r: string)
    ensures forall i :: 0 <= i < |r| ==> r[i] != '<' && r[i] != '>' && r[i] != '"' && r[i] != '\''
  {
    if s == [] then [] else EscapeChar(s[0]) + HtmlEscape(s[1..])
  }

  /** The character a reference written by `EscapeChar` at the front of `s` stands for, and its length. */
  function Entity(s: string): Option<(char, nat)> {
    if s == [] || s[0] != '&' then None
    else if |s| >= 5 && s[..5] == "&amp;" then Some(('&', 5))
    else if |s| >= 4 && s[..4] == "&lt;" then Some(('<', 4))
    else if |s| >= 4 && s[..4] == "&gt;" then Some(('>', 4))
    else if |s| >= 6 && s[..6] == "&quot;" then Some(('"', 6))
    else if |s| >= 6 && s[..6] == "&#x27;" then Some(('\'', 6))
    else None
  }

  /** Decoding of the five references `HtmlEscape` writes; every other character is kept. */
  function HtmlUnescape(s: string): string
    decreases |s|
  {
    if s == [] then []
    else match Entity(s)
      case Some((c, n)) => if 0 < n <= |s| then [c] + HtmlUnescape(s[n..]) else []
      case None => [s[0]] + HtmlUnescape(s[1..])
  }

  lemma {:induction false} EntityOfEscaped(c: char, t: string)
    ensures Entity(EscapeChar(c) + t) ==
      if EscapeChar(c) == [c] then None else Some((c, |EscapeChar(c)|))
  {
    var e := EscapeChar(c) + t;
    var x := EscapeChar(c);
    assert e[..|x|] == x;
    if x == [c] {
      assert e[0] == c;
    } else {
      assert e[0] == '&' && e[1] == x[1];
      if |e| >= 5 { assert e[..5][1] == x[1]; }
      if |e| >= 4 { assert e[..4][1] == x[1]; }
      if |e| >= 6 { assert e[..6][1] == x[1]; }
    }
  }

  lemma {:induction false} UnescapeEscapedChar(c: char, t: string)
    ensures HtmlUnescape(EscapeChar(c) + t) == [c] + HtmlUnescape(t)
  {
    var e := EscapeChar(c) + t;
    EntityOfEscaped(c, t);
    assert e[|EscapeChar(c)|..] == t;
  }

  /** Escaping loses nothing: decoding gives the text back. */
  lemma {:induction false} HtmlEscapeRoundTrip(s: string)
    ensures HtmlUnescape(HtmlEscape(s)) == s
  {
    if s != [] {
      HtmlEscapeRoundTrip(s[1..]);
      UnescapeEscapedChar(s[0], HtmlEscape(s[1..]));
      assert s == [s[0]] + s[1..];
    }
  }

  // ---------------------------------------------------------------------------
  // The whole pipeline

  const DivOpen := "<div style='white-space:pre-wrap; font-size:12px;'>"
  const DivClose := "</div>"

  /** The plain text the markers are searched in: quotes normalised, tags stripped. */
  function PlainText(rawHtml: string): string {
    StripTags(NormalizeQuotes(rawHtml))
  }

  /**
   * The raw cut `text[start_idx:end_idx]`, or `None` when no start marker
   * occurs. The indices found in the lower-cased text are applied to the text
   * itself, which is sound because `Lower` keeps the length.
   */
  function Window(rawHtml: string): (r: Option<string>)
    ensures r.None? <==> forall j :: 0 <= j < |StartMarkers| ==> Find(Lower(PlainText(rawHtml)), StartMarkers[j], 0) == -1
  {
    var text := PlainText(rawHtml);
    var lower := Lower(text);
    var start := StartIndex(lower);
    if start == -1 then None
    else Some(text[start..EndIndex(lower, start)])
  }

  /** The MD&A fragment of a fetched filing, or `None`. */
  function MdaOf(rawHtml: string): Option<string> {
    match Window(rawHtml)
    case None => None
    case Some(w) =>
      var c := CollapseWhitespace(w);
      if c == [] then None else Some(DivOpen + HtmlEscape(c) + DivClose)
  }

  /**
   * There is a fragment exactly when a start marker occurs and the cut holds
   * something besides whitespace; the fragment is the fixed `<div>` around
   * the escaped, tidied cut, which keeps every other character of the cut in
   * order and decodes back to the tidied cut.
   */
  lemma {:induction false} MdaOfSpec(rawHtml: string)
    ensures MdaOf(rawHtml).None? <==> Window(rawHtml).None? || NonSpace(Window(rawHtml).value) == []
    ensures MdaOf(rawHtml).Some? ==>
      var c := CollapseWhitespace(Window(rawHtml).value);
      MdaOf(rawHtml).value == DivOpen + HtmlEscape(c) + DivClose &&
      c != [] && Tidy(c) && NonSpace(c) == NonSpace(Window(rawHtml).value) &&
      HtmlUnescape(HtmlEscape(c)) == c
  {
    if Window(rawHtml).Some? {
      var c := CollapseWhitespace(Window(rawHtml).value);
      CollapseWhitespaceSpec(Window(rawHtml).value);
      HtmlEscapeRoundTrip(c);
    }
  }

  /**
   * `extract_mda_html`. The fetch is a parameter: `None` stands for any
   * `RequestException` (network failure or an error status). A CIK that
   * `int` rejects raises out of the function, here a `Failure`.
   */
  method ExtractMda(cikPadded: string, accession: string, primaryDoc: string, fetch: string -> Option<string>)
    returns (r: Result<Option<string>, string>)
    ensures SecClient.BuildFilingUrl(cikPadded, accession, primaryDoc).Failure? ==>
      r == Failure(SecClient.BuildFilingUrl(cikPadded, accession, primaryDoc).error)
    ensures SecClient.BuildFilingUrl(cikPadded, accession, primaryDoc).Success? ==>
      var url := SecClient.BuildFilingUrl(cikPadded, accession, primaryDoc).value;
      r == Success(if fetch(url).None? then None else MdaOf(fetch(url).value))
  {
    var filingUrl := SecClient.BuildFilingUrl(cikPadded, accession, primaryDoc);
    if filingUrl.Failure? {
      return Failure(filingUrl.error);
    }
    var resp := fetch(filingUrl.value);
    if resp.None? {
      return Success(None);
    }
    var normalized := NormalizeQuotes(resp.value);
    var text := StripTags(normalized);
    var textLower := Lower(text);
    assert text == PlainText(resp.value);
    var startIdx := FindStart(textLower);
    if startIdx == -1 {
      assert Window(resp.value).None?;
      return Success(None);
    }
    var endIdx := FindEnd(textLower, startIdx);
    var snippet := text[startIdx..endIdx];
    assert Window(resp.value) == Some(snippet);
    snippet := CollapseWhitespace(snippet);
    if snippet == [] {
      return Success(None);
    }
    var escaped := HtmlEscape(snippet);
    return Success(Some(DivOpen + escaped + DivClose));
  }
}
