/**
 Composite order numbers: splitting a number into its segments, the canonical
 spelling of a composite number, and the alias numbers kept for its segments.
 */
module OrderAlias {
  import opened Basics
  import opened Sorting

  /** How the runtime folds case and orders two folded segments; `before(a, b)`
      says that the numeric-aware comparison of a with b is not positive. */
  datatype Locale = Locale(lower: string -> string, before: (string, string) -> bool)

  ghost predicate TotalPreorder(locale: Locale) {
    && (forall a, b :: locale.before(a, b) || locale.before(b, a))
    && (forall a, b, c :: locale.before(a, b) && locale.before(b, c) ==> locale.before(a, c))
  }

  // ---------- strings ----------

  function SplitOn(s: string, separator: char): (parts: seq<string>)
    ensures parts != []
  {
    if s == [] then [[]]
    else
      var rest := SplitOn(s[1..], separator);
      if s[0] == separator then [[]] + rest
      else [[s[0]] + rest[0]] + rest[1..]
  }

  lemma {:induction false} SplitOnFree(s: string, separator: char)
    ensures forall i | 0 <= i < |SplitOn(s, separator)| :: Free(SplitOn(s, separator)[i], separator)
  {
    if s != [] {
      SplitOnFree(s[1..], separator);
    }
  }

  function Join(parts: seq<string>, separator: char): string {
    if parts == [] then []
    else if |parts| == 1 then parts[0]
    else parts[0] + [separator] + Join(parts[1..], separator)
  }

  /** Length of the leading run without white space. */
  function WordLength(s: string): (n: nat)
    ensures n <= |s|
    ensures forall i | 0 <= i < n :: !IsSpace(s[i])
    ensures n < |s| ==> IsSpace(s[n])
  {
    if s == [] || IsSpace(s[0]) then 0 else 1 + WordLength(s[1..])
  }

  predicate IsWord(w: string) {
    w != [] && forall i | 0 <= i < |w| :: !IsSpace(w[i])
  }

  /** The non-empty pieces between white space. */
  function Words(s: string): (words: seq<string>)
    ensures forall i | 0 <= i < |words| :: IsWord(words[i]) && forall c :: Free(s, c) ==> Free(words[i], c)
  {
    if s == [] then []
    else if IsSpace(s[0]) then Words(s[1..])
    else
      var n := WordLength(s);
      [s[..n]] + Words(s[n..])
  }

  /** A word with a dash that has something on both sides. */
  predicate OrderLike(w: string) {
    exists i | 0 < i < |w| - 1 :: w[i] == '-'
  }

  function OrderLikeOnly(words: seq<string>): (r: seq<string>)
    ensures forall i | 0 <= i < |r| :: exists j | 0 <= j < |words| :: r[i] == words[j]
    ensures |r| <= |words|
  {
    if words == [] then []
    else (if OrderLike(words[0]) then [words[0]] else []) + OrderLikeOnly(words[1..])
  }

  // ---------- splitting ----------

  function SplitPart(part: string): seq<string> {
    var trimmed := Trim(part);
    if trimmed == [] then []
    else
      var orderLike := OrderLikeOnly(Words(trimmed));
      if |orderLike| > 1 then orderLike else [trimmed]
  }

  function SplitParts(parts: seq<string>): seq<string> {
    if parts == [] then [] else SplitPart(parts[0]) + SplitParts(parts[1..])
  }

  function TrimNonEmpty(parts: seq<string>): seq<string> {
    if parts == [] then []
    else (if Trim(parts[0]) == [] then [] else [Trim(parts[0])]) + TrimNonEmpty(parts[1..])
  }

  function SplitComposite(orderNo: string): seq<string> {
    TrimNonEmpty(SplitParts(SplitOn(orderNo, '/')))
  }

  /** A segment that splitting leaves in one piece. */
  predicate Whole(part: string) {
    part != [] && Free(part, '/') && Trim(part) == part && SplitPart(part) == [part]
  }

  predicate AllWhole(parts: seq<string>) {
    forall i | 0 <= i < |parts| :: Whole(parts[i])
  }

  lemma WordIsWhole(w: string)
    requires IsWord(w)
    ensures Trim(w) == w && SplitPart(w) == [w]
  {
    assert w[|w|..] == [] && w[..|w|] == w;
    assert WordLength(w) == |w|;
    assert Words(w) == [w];
  }

  lemma {:induction false} WordLengthOf(w: string, rest: string)
    requires IsWord(w) && (rest == [] || IsSpace(rest[0]))
    ensures WordLength(w + rest) == |w|
  {
    assert (w + rest)[1..] == w[1..] + rest;
    if |w| > 1 {
      WordLengthOf(w[1..], rest);
    } else {
      assert w[1..] + rest == rest;
    }
  }

  lemma {:induction false} JoinedTrimmed(words: seq<string>)
    requires words != [] && forall i | 0 <= i < |words| :: IsWord(words[i])
    ensures Join(words, ' ') != [] && Trimmed(Join(words, ' '))
  {
    if |words| > 1 {
      JoinedTrimmed(words[1..]);
      var s, tail := Join(words, ' '), Join(words[1..], ' ');
      assert s[0] == words[0][0] && s[|s| - 1] == tail[|tail| - 1];
    }
  }

  lemma FirstWord(w: string, rest: string)
    requires IsWord(w) && (rest == [] || IsSpace(rest[0]))
    ensures Words(w + rest) == [w] + Words(rest)
  {
    WordLengthOf(w, rest);
    assert (w + rest)[..|w|] == w && (w + rest)[|w|..] == rest;
  }

  /** Words joined by blanks are the words of the text. */
  lemma {:induction false} WordsOfJoin(words: seq<string>)
    requires forall i | 0 <= i < |words| :: IsWord(words[i])
    ensures Words(Join(words, ' ')) == words
  {
    if |words| == 1 {
      assert words[0] + [] == words[0];
      FirstWord(words[0], []);
    } else if |words| > 1 {
      var tail := Join(words[1..], ' ');
      WordsOfJoin(words[1..]);
      FirstWord(words[0], [' '] + tail);
      assert ([' '] + tail)[1..] == tail;
      assert words[0] + [' '] + tail == words[0] + ([' '] + tail);
    }
  }

  ghost predicate SomeOrderLike(words: seq<string>) {
    exists i | 0 <= i < |words| :: OrderLike(words[i])
  }

  ghost predicate TwoOrderLike(words: seq<string>) {
    exists i, j | 0 <= i < j < |words| :: OrderLike(words[i]) && OrderLike(words[j])
  }

  lemma OrderLikeCons(words: seq<string>)
    requires words != []
    ensures SomeOrderLike(words) <==> OrderLike(words[0]) || SomeOrderLike(words[1..])
    ensures TwoOrderLike(words) <==> (OrderLike(words[0]) && SomeOrderLike(words[1..])) || TwoOrderLike(words[1..])
  {
    var rest := words[1..];
    assert forall i | 0 < i < |words| :: words[i] == rest[i - 1];
    if i :| 0 <= i < |rest| && OrderLike(rest[i]) {
      assert OrderLike(words[i + 1]);
    }
    if i, j :| 0 <= i < j < |rest| && OrderLike(rest[i]) && OrderLike(rest[j]) {
      assert OrderLike(words[i + 1]) && OrderLike(words[j + 1]);
    }
  }

  lemma {:induction false} OrderLikeOnlyIs(words: seq<string>)
    ensures forall w :: w in OrderLikeOnly(words) <==> w in words && OrderLike(w)
    ensures |OrderLikeOnly(words)| > 0 <==> SomeOrderLike(words)
    ensures |OrderLikeOnly(words)| > 1 <==> TwoOrderLike(words)
  {
    if words != [] {
      OrderLikeOnlyIs(words[1..]);
      OrderLikeCons(words);
      assert words == [words[0]] + words[1..];
    }
  }

  lemma {:induction false} AllOrderLike(words: seq<string>)
    requires forall w | w in words :: OrderLike(w)
    ensures OrderLikeOnly(words) == words
  {
    if words != [] {
      assert words[0] in words;
      AllOrderLike(words[1..]);
      assert [words[0]] + words[1..] == words;
    }
  }

  /** A part of several words falls apart just when two of them look like orders:
      then it is split into exactly those that do, else it stays in one piece. */
  lemma SplitPartOfWords(words: seq<string>)
    requires words != [] && forall i | 0 <= i < |words| :: IsWord(words[i])
    ensures TwoOrderLike(words) ==> forall w :: w in SplitPart(Join(words, ' ')) <==> w in words && OrderLike(w)
    ensures !TwoOrderLike(words) ==> SplitPart(Join(words, ' ')) == [Join(words, ' ')]
    ensures |words| > 1 && (forall w | w in words :: OrderLike(w)) ==> SplitPart(Join(words, ' ')) == words
  {
    WordsOfJoin(words);
    JoinedTrimmed(words);
    OrderLikeOnlyIs(words);
    if |words| > 1 && forall w | w in words :: OrderLike(w) {
      AllOrderLike(words);
    }
  }

  lemma PartIsWhole(part: string)
    requires Free(part, '/')
    ensures AllWhole(SplitPart(part))
  {
    var trimmed := Trim(part);
    var words := Words(trimmed);
    var orderLike := OrderLikeOnly(words);
    if trimmed != [] && |orderLike| > 1 {
      forall i | 0 <= i < |orderLike|
        ensures Whole(orderLike[i])
      {
        var j :| 0 <= j < |words| && orderLike[i] == words[j];
        WordIsWhole(words[j]);
      }
    }
  }

  lemma {:induction false} PartsAreWhole(parts: seq<string>)
    requires forall i | 0 <= i < |parts| :: Free(parts[i], '/')
    ensures AllWhole(SplitParts(parts))
  {
    if parts != [] {
      PartIsWhole(parts[0]);
      PartsAreWhole(parts[1..]);
    }
  }

  lemma {:induction false} TrimNonEmptyKeeps(parts: seq<string>)
    requires AllWhole(parts)
    ensures TrimNonEmpty(parts) == parts
  {
    if parts != [] {
      assert Whole(parts[0]) && AllWhole(parts[1..]);
      TrimNonEmptyKeeps(parts[1..]);
    }
  }

  /** Every segment is non-empty, free of the separator, and cannot be split further. */
  lemma SegmentsAreWhole(orderNo: string)
    ensures AllWhole(SplitComposite(orderNo))
  {
    SplitOnFree(orderNo, '/');
    PartsAreWhole(SplitOn(orderNo, '/'));
    TrimNonEmptyKeeps(SplitParts(SplitOn(orderNo, '/')));
  }

  lemma {:induction false} SplitOnPlain(s: string, separator: char)
    requires Free(s, separator)
    ensures SplitOn(s, separator) == [s]
  {
    if s != [] {
      SplitOnPlain(s[1..], separator);
      assert [s[0]] + s[1..] == s;
    }
  }

  lemma {:induction false} SplitOnFirst(head: string, tail: string, separator: char)
    requires Free(head, separator)
    ensures SplitOn(head + [separator] + tail, separator) == [head] + SplitOn(tail, separator)
  {
    var s := head + [separator] + tail;
    if head == [] {
      assert s[1..] == tail;
    } else {
      assert s[1..] == head[1..] + [separator] + tail;
      SplitOnFirst(head[1..], tail, separator);
      assert [head[0]] + head[1..] == head;
    }
  }

  lemma {:induction false} SplitOnJoin(parts: seq<string>, separator: char)
    requires parts != [] && forall i | 0 <= i < |parts| :: Free(parts[i], separator)
    ensures SplitOn(Join(parts, separator), separator) == parts
  {
    if |parts| == 1 {
      SplitOnPlain(parts[0], separator);
    } else {
      SplitOnJoin(parts[1..], separator);
      SplitOnFirst(parts[0], Join(parts[1..], separator), separator);
    }
  }

  lemma {:induction false} SplitPartsWhole(parts: seq<string>)
    requires AllWhole(parts)
    ensures SplitParts(parts) == parts
  {
    if parts != [] {
      assert Whole(parts[0]) && AllWhole(parts[1..]);
      SplitPartsWhole(parts[1..]);
    }
  }

  /** Splitting a number joined from whole segments gives the segments back. */
  lemma SplitOfJoin(parts: seq<string>)
    requires parts != [] && AllWhole(parts)
    ensures SplitComposite(Join(parts, '/')) == parts
  {
    assert forall i | 0 <= i < |parts| :: Whole(parts[i]);
    SplitOnJoin(parts, '/');
    SplitPartsWhole(parts);
    TrimNonEmptyKeeps(parts);
  }

  // ---------- the canonical number ----------

  function Normalize(s: string, locale: Locale): string {
    locale.lower(Trim(s))
  }

  datatype Segment = Segment(key: string, text: string)

  /** First spelling of each non-empty folded segment, in order of appearance. */
  function Distinct(parts: seq<string>, seen: set<string>, locale: Locale): (r: seq<Segment>)
    ensures forall i | 0 <= i < |r| :: r[i].key == Normalize(r[i].text, locale) && r[i].key != [] && r[i].key !in seen
    ensures forall i, j | 0 <= i < j < |r| :: r[i].key != r[j].key
  {
    if parts == [] then []
    else
      var key := Normalize(parts[0], locale);
      if key == [] || key in seen then Distinct(parts[1..], seen, locale)
      else [Segment(key, parts[0])] + Distinct(parts[1..], seen + {key}, locale)
  }

  ghost function Keys(segments: seq<Segment>): set<string> {
    set i | 0 <= i < |segments| :: segments[i].key
  }

  /** The folded, non-empty segments of a list of spellings. */
  function Folded(parts: seq<string>, locale: Locale): set<string> {
    (set i | 0 <= i < |parts| :: Normalize(parts[i], locale)) - {[]}
  }

  /** De-duplication keeps exactly the folded segments, under spellings that occur. */
  lemma {:induction false} DistinctKeys(parts: seq<string>, seen: set<string>, locale: Locale)
    ensures Keys(Distinct(parts, seen, locale)) == Folded(parts, locale) - seen
    ensures forall x | x in Distinct(parts, seen, locale) :: x.text in parts
  {
    if parts != [] {
      var key := Normalize(parts[0], locale);
      assert Folded(parts, locale) == Folded(parts[1..], locale) + {key} - {[]} by {
        assert parts == [parts[0]] + parts[1..];
        FoldedCons(parts[0], parts[1..], locale);
      }
      if key == [] || key in seen {
        DistinctKeys(parts[1..], seen, locale);
      } else {
        DistinctKeys(parts[1..], seen + {key}, locale);
        KeysCons(Segment(key, parts[0]), Distinct(parts[1..], seen + {key}, locale));
      }
    }
  }

  lemma FoldedCons(part: string, parts: seq<string>, locale: Locale)
    ensures Folded([part] + parts, locale) == Folded(parts, locale) + {Normalize(part, locale)} - {[]}
  {
    var all := [part] + parts;
    assert forall i | 0 <= i < |parts| :: all[i + 1] == parts[i];
    forall k | k in Folded(parts, locale) + {Normalize(part, locale)} - {[]}
      ensures k in Folded(all, locale)
    {
      if k == Normalize(part, locale) {
        assert all[0] == part;
      } else {
        var i :| 0 <= i < |parts| && Normalize(parts[i], locale) == k;
        assert all[i + 1] == parts[i];
      }
    }
  }

  lemma KeysCons(x: Segment, segments: seq<Segment>)
    ensures Keys([x] + segments) == {x.key} + Keys(segments)
  {
    var all := [x] + segments;
    forall k | k in {x.key} + Keys(segments)
      ensures k in Keys(all)
    {
      if k == x.key {
        assert all[0] == x;
      } else {
        var i :| 0 <= i < |segments| && segments[i].key == k;
        assert all[i + 1] == segments[i];
      }
    }
  }

  /** How segments are ordered: by key, in the locale's order. */
  predicate ByKeyIn(locale: Locale, a: Segment, b: Segment) {
    locale.before(a.key, b.key)
  }

  function ByKey(locale: Locale): (Segment, Segment) -> bool {
    (a, b) => ByKeyIn(locale, a, b)
  }

  function Texts(segments: seq<Segment>): (r: seq<string>)
    ensures |r| == |segments| && forall i | 0 <= i < |r| :: r[i] == segments[i].text
  {
    if segments == [] then [] else [segments[0].text] + Texts(segments[1..])
  }

  function Canonical(orderNo: string, locale: Locale): string {
    var parts := SplitComposite(orderNo);
    if |parts| <= 1 then Trim(orderNo)
    else Join(Texts(Sort(Distinct(parts, {}, locale), ByKey(locale))), '/')
  }

  /** The loop over the segments moves on by one. */
  lemma NextSpelling(entries: seq<Segment>, parts: seq<string>, i: nat, seen: set<string>, locale: Locale,
                     all: seq<Segment>)
    requires i < |parts| && entries + Distinct(parts[i..], seen, locale) == all
    ensures var key := Normalize(parts[i], locale);
            if key == [] || key in seen then entries + Distinct(parts[i + 1..], seen, locale) == all
            else entries + [Segment(key, parts[i])] + Distinct(parts[i + 1..], seen + {key}, locale) == all
  {
    var key := Normalize(parts[i], locale);
    assert parts[i..][0] == parts[i] && parts[i..][1..] == parts[i + 1..];
    Regroup(entries, Segment(key, parts[i]), Distinct(parts[i + 1..], seen + {key}, locale));
  }

  /** The loop over the segments keeps the first spelling for each folded key. */
  method FirstSpellings(parts: seq<string>, locale: Locale) returns (entries: seq<Segment>)
    ensures entries == Distinct(parts, {}, locale)
  {
    var seen: set<string> := {};
    entries := [];
    ghost var all := Distinct(parts, {}, locale);
    assert parts[0..] == parts;
    for i := 0 to |parts|
      invariant entries + Distinct(parts[i..], seen, locale) == all
    {
      NextSpelling(entries, parts, i, seen, locale, all);
      var normalized := Normalize(parts[i], locale);
      if normalized != [] && normalized !in seen {
        seen := seen + {normalized};
        entries := entries + [Segment(normalized, parts[i])];
      }
    }
    assert entries == all;
  }

  method CanonicalizeOrderNo(orderNo: string, locale: Locale) returns (r: string)
    ensures r == Canonical(orderNo, locale)
  {
    var parts := SplitComposite(orderNo);
    if |parts| <= 1 {
      return Trim(orderNo);
    }
    var entries := FirstSpellings(parts, locale);
    r := Join(Texts(Sort(entries, ByKey(locale))), '/');
  }

  lemma Regroup(a: seq<Segment>, x: Segment, b: seq<Segment>)
    ensures a + ([x] + b) == a + [x] + b
  {
  }

  lemma SortOrdered(segments: seq<Segment>, locale: Locale)
    requires TotalPreorder(locale)
    ensures Sorted(Sort(segments, ByKey(locale)), ByKey(locale))
  {
    SortSorted(segments, ByKey(locale));
  }

  lemma {:induction false} SortOfOrdered(segments: seq<Segment>, locale: Locale)
    requires Sorted(segments, ByKey(locale))
    ensures Sort(segments, ByKey(locale)) == segments
  {
    if segments != [] {
      SortOfOrdered(segments[1..], locale);
    }
  }

  lemma {:induction false} DistinctOfTexts(segments: seq<Segment>, seen: set<string>, locale: Locale)
    requires forall x | x in segments :: x.key == Normalize(x.text, locale) && x.key != [] && x.key !in seen
    requires forall i, j | 0 <= i < j < |segments| :: segments[i].key != segments[j].key
    ensures Distinct(Texts(segments), seen, locale) == segments
  {
    if segments != [] {
      DistinctOfTexts(segments[1..], seen + {segments[0].key}, locale);
      assert Texts(segments)[1..] == Texts(segments[1..]);
    }
  }

  lemma SortKeepsKeys(segments: seq<Segment>, locale: Locale)
    ensures forall x :: x in Sort(segments, ByKey(locale)) <==> x in segments
    ensures (forall i, j | 0 <= i < j < |segments| :: segments[i].key != segments[j].key) ==>
              forall i, j | 0 <= i < j < |segments| ::
                Sort(segments, ByKey(locale))[i].key != Sort(segments, ByKey(locale))[j].key
  {
    var sorted := Sort(segments, ByKey(locale));
    assert forall x :: x in sorted <==> x in multiset(sorted);
    assert forall x :: x in segments <==> x in multiset(segments);
    if forall i, j | 0 <= i < j < |segments| :: segments[i].key != segments[j].key {
      forall i, j | 0 <= i < j < |sorted|
        ensures sorted[i].key != sorted[j].key
      {
        if sorted[i].key == sorted[j].key {
          DistinctOnce(segments, sorted[i]);
          assert sorted[i] in segments && sorted[j] in segments;
          assert sorted[i] == sorted[j];
          TwiceInMultiset(sorted, i, j);
        }
      }
    }
  }

  lemma {:induction false} DistinctOnce(segments: seq<Segment>, x: Segment)
    requires forall i, j | 0 <= i < j < |segments| :: segments[i].key != segments[j].key
    ensures multiset(segments)[x] <= 1
  {
    if segments != [] {
      DistinctOnce(segments[1..], x);
      assert segments == [segments[0]] + segments[1..];
      if segments[0] == x {
        assert x !in segments[1..];
        assert multiset(segments[1..])[x] == 0;
      }
    }
  }

  lemma TwiceInMultiset(s: seq<Segment>, i: nat, j: nat)
    requires i < j < |s| && s[i] == s[j]
    ensures multiset(s)[s[i]] >= 2
  {
    assert s == s[..i] + [s[i]] + s[i + 1..j] + [s[j]] + s[j + 1..];
  }


  /** The segments of a canonical number, as they were joined. */
  function CanonicalSegments(orderNo: string, locale: Locale): seq<Segment> {
    Sort(Distinct(SplitComposite(orderNo), {}, locale), ByKey(locale))
  }

  predicate WellKeyed(segments: seq<Segment>, locale: Locale) {
    && (forall i | 0 <= i < |segments| ::
          segments[i].key == Normalize(segments[i].text, locale) && segments[i].key != [])
    && (forall i, j | 0 <= i < j < |segments| :: segments[i].key != segments[j].key)
  }

  lemma SortKeys(segments: seq<Segment>, locale: Locale)
    ensures Keys(Sort(segments, ByKey(locale))) == Keys(segments)
  {
    var sorted := Sort(segments, ByKey(locale));
    SortKeepsKeys(segments, locale);
    forall k | k in Keys(segments)
      ensures k in Keys(sorted)
    {
      var i :| 0 <= i < |segments| && segments[i].key == k;
      assert segments[i] in sorted;
    }
    forall k | k in Keys(sorted)
      ensures k in Keys(segments)
    {
      var i :| 0 <= i < |sorted| && sorted[i].key == k;
      assert sorted[i] in segments;
    }
  }

  lemma CanonicalTexts(orderNo: string, locale: Locale)
    ensures AllWhole(Texts(CanonicalSegments(orderNo, locale)))
  {
    var parts := SplitComposite(orderNo);
    var distinct, segments := Distinct(parts, {}, locale), CanonicalSegments(orderNo, locale);
    SegmentsAreWhole(orderNo);
    DistinctKeys(parts, {}, locale);
    SortKeepsKeys(distinct, locale);
    forall i | 0 <= i < |segments|
      ensures Whole(segments[i].text)
    {
      assert segments[i] in segments;
    }
  }

  lemma CanonicalWellKeyed(orderNo: string, locale: Locale)
    ensures WellKeyed(CanonicalSegments(orderNo, locale), locale)
    ensures Keys(CanonicalSegments(orderNo, locale)) == Folded(SplitComposite(orderNo), locale)
  {
    var distinct, segments := Distinct(SplitComposite(orderNo), {}, locale), CanonicalSegments(orderNo, locale);
    DistinctKeys(SplitComposite(orderNo), {}, locale);
    SortKeepsKeys(distinct, locale);
    SortKeys(distinct, locale);
    forall i | 0 <= i < |segments|
      ensures segments[i].key == Normalize(segments[i].text, locale) && segments[i].key != []
    {
      assert segments[i] in distinct;
    }
  }

  lemma FoldedTexts(segments: seq<Segment>, locale: Locale)
    requires WellKeyed(segments, locale)
    ensures Folded(Texts(segments), locale) == Keys(segments)
  {
    var texts := Texts(segments);
    forall i | 0 <= i < |segments|
      ensures Normalize(texts[i], locale) == segments[i].key && segments[i].key in Folded(texts, locale)
    {
      assert texts[i] == segments[i].text;
    }
    forall k | k in Folded(texts, locale)
      ensures k in Keys(segments)
    {
      var i :| 0 <= i < |texts| && Normalize(texts[i], locale) == k;
      assert segments[i].key == k;
    }
  }

  /** Splitting the canonical number gives back the segments it was joined from. */
  lemma SplitCanonical(orderNo: string, locale: Locale)
    requires |SplitComposite(orderNo)| > 1
    ensures SplitComposite(Canonical(orderNo, locale)) == Texts(CanonicalSegments(orderNo, locale))
  {
    CanonicalTexts(orderNo, locale);
    var texts := Texts(CanonicalSegments(orderNo, locale));
    if texts == [] {
      assert SplitOn([], '/') == [[]] && SplitParts([[]]) == [];
    } else {
      SplitOfJoin(texts);
    }
  }

  lemma {:induction false} TrimEnd(s: string)
    requires s != [] && IsSpace(s[|s| - 1])
    ensures Trim(s) == Trim(s[..|s| - 1])
  {
    if IsSpace(s[0]) && |s| > 1 {
      TrimEnd(s[1..]);
      assert s[1..][..|s| - 2] == s[..|s| - 1][1..];
    }
  }

  lemma LastPartGrows(first: char, rest: seq<string>, tail: seq<string>, c: char)
    requires rest != [] && tail == rest[..|rest| - 1] + [rest[|rest| - 1] + [c]]
    ensures var parts, longer := [[]] + rest, [[]] + tail;
            longer == parts[..|parts| - 1] + [parts[|parts| - 1] + [c]]
    ensures var parts, longer := [[first] + rest[0]] + rest[1..], [[first] + tail[0]] + tail[1..];
            longer == parts[..|parts| - 1] + [parts[|parts| - 1] + [c]]
  {
    if |rest| == 1 {
      assert [first] + (rest[0] + [c]) == [first] + rest[0] + [c];
    }
  }

  /** A last character other than the separator goes to the last part. */
  lemma {:induction false} SplitOnSnoc(s: string, c: char)
    requires c != '/'
    ensures var parts, longer := SplitOn(s, '/'), SplitOn(s + [c], '/');
            longer == parts[..|parts| - 1] + [parts[|parts| - 1] + [c]]
  {
    if s == [] {
      assert s + [c] == [c] && [c][1..] == [] && [c] + [] == [c];
      assert SplitOn([c], '/') == [[c]];
    } else {
      SplitOnSnoc(s[1..], c);
      assert (s + [c])[1..] == s[1..] + [c];
      LastPartGrows(s[0], SplitOn(s[1..], '/'), SplitOn(s[1..] + [c], '/'), c);
    }
  }

  /** White space at the end does not change the segments. */
  lemma SplitLastSpace(init: string, c: char)
    requires IsSpace(c)
    ensures SplitParts(SplitOn(init + [c], '/')) == SplitParts(SplitOn(init, '/'))
  {
    SplitOnSnoc(init, c);
    LastPartSpace(SplitOn(init, '/'), SplitOn(init + [c], '/'), c);
  }

  lemma LastPartSpace(parts: seq<string>, longer: seq<string>, c: char)
    requires IsSpace(c) && parts != []
    requires longer == parts[..|parts| - 1] + [parts[|parts| - 1] + [c]]
    ensures SplitParts(longer) == SplitParts(parts)
  {
    var init, last := parts[..|parts| - 1], parts[|parts| - 1];
    assert parts == init + [last];
    SplitPartsSnoc(init, last);
    SplitPartsSnoc(init, last + [c]);
    TrimEnd(last + [c]);
    assert (last + [c])[..|last|] == last;
  }

  lemma {:induction false} SplitPartsSnoc(parts: seq<string>, last: string)
    ensures SplitParts(parts + [last]) == SplitParts(parts) + SplitPart(last)
  {
    var longer := parts + [last];
    if parts == [] {
      assert longer == [last] && longer[1..] == [];
    } else {
      assert longer[0] == parts[0] && longer[1..] == parts[1..] + [last];
      SplitPartsSnoc(parts[1..], last);
      Reassociate(SplitPart(parts[0]), SplitParts(parts[1..]), SplitPart(last));
    }
  }

  lemma Reassociate(a: seq<string>, b: seq<string>, c: seq<string>)
    ensures a + (b + c) == a + b + c
  {
  }

  lemma SplitFirstSpace(c: char, tail: string)
    requires IsSpace(c)
    ensures SplitParts(SplitOn([c] + tail, '/')) == SplitParts(SplitOn(tail, '/'))
  {
    var rest := SplitOn(tail, '/');
    assert ([c] + tail)[1..] == tail;
    assert ([c] + rest[0])[1..] == rest[0];
    assert Trim([c] + rest[0]) == Trim(rest[0]);
  }

  lemma SplitWithoutFirst(s: string)
    requires s != [] && IsSpace(s[0])
    ensures SplitComposite(s[1..]) == SplitComposite(s)
  {
    SplitFirstSpace(s[0], s[1..]);
    assert s == [s[0]] + s[1..];
  }

  lemma SplitWithoutLast(s: string)
    requires s != [] && IsSpace(s[|s| - 1])
    ensures SplitComposite(s[..|s| - 1]) == SplitComposite(s)
  {
    SplitLastSpace(s[..|s| - 1], s[|s| - 1]);
    assert s == s[..|s| - 1] + [s[|s| - 1]];
  }

  /** White space around a number does not change its segments. */
  lemma {:induction false} SplitOfTrim(s: string)
    ensures SplitComposite(Trim(s)) == SplitComposite(s)
    decreases |s|
  {
    if s != [] && IsSpace(s[0]) {
      SplitOfTrim(s[1..]);
      SplitWithoutFirst(s);
    } else if s != [] && IsSpace(s[|s| - 1]) {
      SplitOfTrim(s[..|s| - 1]);
      SplitWithoutLast(s);
    }
  }

  /** The canonical number has exactly the folded segments of the number. */
  lemma CanonicalKeepsSegments(orderNo: string, locale: Locale)
    ensures Folded(SplitComposite(Canonical(orderNo, locale)), locale) == Folded(SplitComposite(orderNo), locale)
  {
    if |SplitComposite(orderNo)| <= 1 {
      SplitOfTrim(orderNo);
    } else {
      SplitCanonical(orderNo, locale);
      CanonicalWellKeyed(orderNo, locale);
      FoldedTexts(CanonicalSegments(orderNo, locale), locale);
    }
  }

  /** Canonicalizing twice is canonicalizing once. */
  lemma CanonicalIdempotent(orderNo: string, locale: Locale)
    requires TotalPreorder(locale)
    ensures Canonical(Canonical(orderNo, locale), locale) == Canonical(orderNo, locale)
  {
    if |SplitComposite(orderNo)| <= 1 {
      SplitOfTrim(orderNo);
    } else {
      var segments := CanonicalSegments(orderNo, locale);
      SplitCanonical(orderNo, locale);
      CanonicalWellKeyed(orderNo, locale);
      CanonicalTexts(orderNo, locale);
      if |segments| <= 1 {
        if |segments| == 1 {
          assert Whole(Texts(segments)[0]);
        }
      } else {
        DistinctOfTexts(segments, {}, locale);
        SortOrdered(Distinct(SplitComposite(orderNo), {}, locale), locale);
        SortOfOrdered(segments, locale);
      }
    }
  }

  lemma {:induction false} JoinTrimmed(parts: seq<string>)
    requires AllWhole(parts)
    ensures Trimmed(Join(parts, '/'))
    ensures parts != [] ==> Join(parts, '/') != []
  {
    if |parts| == 1 {
      assert Whole(parts[0]);
    } else if |parts| > 1 {
      assert Whole(parts[0]) && AllWhole(parts[1..]);
      JoinTrimmed(parts[1..]);
    }
  }

  /** A canonical number has no white space around it. */
  lemma CanonicalTrimmed(orderNo: string, locale: Locale)
    ensures Trim(Canonical(orderNo, locale)) == Canonical(orderNo, locale)
  {
    if |SplitComposite(orderNo)| > 1 {
      CanonicalTexts(orderNo, locale);
      JoinTrimmed(Texts(CanonicalSegments(orderNo, locale)));
    }
  }

  // ---------- independence of the order of segments ----------

  function KeyList(segments: seq<Segment>): (r: seq<string>)
    ensures |r| == |segments| && forall i | 0 <= i < |r| :: r[i] == segments[i].key
  {
    if segments == [] then [] else [segments[0].key] + KeyList(segments[1..])
  }

  /** Two lists in order, without ties, over the same keys start with the same key. */
  lemma FirstKeysAgree(a: seq<Segment>, b: seq<Segment>, locale: Locale)
    requires a != [] && b != [] && Keys(a) == Keys(b)
    requires Sorted(a, ByKey(locale)) && Sorted(b, ByKey(locale))
    requires forall i | 0 <= i < |a| :: locale.before(a[i].key, a[i].key)
    requires forall k, l | k in Keys(a) && l in Keys(a) && locale.before(k, l) && locale.before(l, k) :: k == l
    ensures a[0].key == b[0].key
  {
    assert a[0].key in Keys(a) && b[0].key in Keys(b);
    var i :| 0 <= i < |b| && b[i].key == a[0].key;
    var j :| 0 <= j < |a| && a[j].key == b[0].key;
    assert j > 0 ==> ByKeyIn(locale, a[0], a[j]);
    assert i > 0 ==> ByKeyIn(locale, b[0], b[i]);
  }

  /** Two lists in order, without ties, over the same keys are the same list of keys. */
  lemma {:induction false} OrderedKeysUnique(a: seq<Segment>, b: seq<Segment>, locale: Locale)
    requires WellKeyed(a, locale) && WellKeyed(b, locale) && Keys(a) == Keys(b)
    requires Sorted(a, ByKey(locale)) && Sorted(b, ByKey(locale))
    requires forall i | 0 <= i < |a| :: locale.before(a[i].key, a[i].key)
    requires forall k, l | k in Keys(a) && l in Keys(a) && locale.before(k, l) && locale.before(l, k) :: k == l
    ensures KeyList(a) == KeyList(b)
  {
    assert b != [] ==> b[0].key in Keys(b);
    if a != [] {
      assert a[0].key in Keys(a);
      FirstKeysAgree(a, b, locale);
      KeysTail(a);
      KeysTail(b);
      OrderedKeysUnique(a[1..], b[1..], locale);
    }
  }

  lemma KeysTail(a: seq<Segment>)
    requires a != [] && forall i, j | 0 <= i < j < |a| :: a[i].key != a[j].key
    ensures Keys(a[1..]) == Keys(a) - {a[0].key}
  {
    assert a == [a[0]] + a[1..];
    KeysCons(a[0], a[1..]);
  }

  /** Numbers with the same folded segments, in any order and spelling, have
      canonical numbers with the same folded segments in the same order, as
      long as no two different segments tie. */
  lemma CanonicalIgnoresOrder(s: string, t: string, locale: Locale)
    requires TotalPreorder(locale)
    requires |SplitComposite(s)| > 1 && |SplitComposite(t)| > 1
    requires Folded(SplitComposite(s), locale) == Folded(SplitComposite(t), locale)
    requires forall k, l | k in Folded(SplitComposite(s), locale) && l in Folded(SplitComposite(s), locale) &&
               locale.before(k, l) && locale.before(l, k) :: k == l
    ensures KeyList(CanonicalSegments(s, locale)) == KeyList(CanonicalSegments(t, locale))
    ensures SplitComposite(Canonical(s, locale)) == Texts(CanonicalSegments(s, locale))
    ensures SplitComposite(Canonical(t, locale)) == Texts(CanonicalSegments(t, locale))
  {
    CanonicalWellKeyed(s, locale);
    CanonicalWellKeyed(t, locale);
    SortOrdered(Distinct(SplitComposite(s), {}, locale), locale);
    SortOrdered(Distinct(SplitComposite(t), {}, locale), locale);
    OrderedKeysUnique(CanonicalSegments(s, locale), CanonicalSegments(t, locale), locale);
    SplitCanonical(s, locale);
    SplitCanonical(t, locale);
  }

  // ---------- aliases and lookup candidates ----------

  /** The alias numbers of a composite number: its folded segments. */
  function AliasNos(orderNo: string, locale: Locale): set<string> {
    var parts := SplitComposite(Canonical(orderNo, locale));
    if |parts| <= 1 then {} else Folded(parts, locale)
  }

  /** The spellings a lookup tries. */
  function ExactCandidates(value: string, locale: Locale): seq<string> {
    var raw := Trim(value);
    if raw == [] then []
    else
      var canonical := Canonical(raw, locale);
      Texts(Distinct(SplitComposite(raw) + SplitComposite(canonical) + [raw, canonical], {}, locale))
  }

  /** The folded forms of those spellings. */
  function FoldedCandidates(value: string, locale: Locale): set<string> {
    Folded(ExactCandidates(value, locale), locale)
  }

  lemma WholeIsCandidate(segment: string, locale: Locale)
    requires Whole(segment) && Normalize(segment, locale) != []
    ensures Normalize(segment, locale) in FoldedCandidates(segment, locale)
  {
    var canonical := Canonical(segment, locale);
    var tried := SplitComposite(segment) + SplitComposite(canonical) + [segment, canonical];
    assert tried[|tried| - 2] == segment;
    assert Normalize(segment, locale) in Folded(tried, locale);
    DistinctKeys(tried, {}, locale);
    FoldedTexts(Distinct(tried, {}, locale), locale);
  }

  /** A lookup for one segment of a composite number tries that segment's alias. */
  lemma SegmentIsCandidate(orderNo: string, i: nat, locale: Locale)
    requires |SplitComposite(Canonical(orderNo, locale))| > 1 && i < |SplitComposite(Canonical(orderNo, locale))|
    requires Normalize(SplitComposite(Canonical(orderNo, locale))[i], locale) != []
    ensures var segment := SplitComposite(Canonical(orderNo, locale))[i];
            Normalize(segment, locale) in AliasNos(orderNo, locale) * FoldedCandidates(segment, locale)
  {
    SegmentsAreWhole(Canonical(orderNo, locale));
    WholeIsCandidate(SplitComposite(Canonical(orderNo, locale))[i], locale);
  }

  lemma {:induction false} AllSeen(parts: seq<string>, x: string, seen: set<string>, locale: Locale)
    requires (forall i | 0 <= i < |parts| :: parts[i] == x) && Normalize(x, locale) in seen
    ensures Distinct(parts, seen, locale) == []
  {
    if parts != [] {
      AllSeen(parts[1..], x, seen, locale);
    }
  }

  lemma RepeatedWord(tried: seq<string>, x: string, locale: Locale)
    requires tried != [] && (forall i | 0 <= i < |tried| :: tried[i] == x)
    requires Normalize(x, locale) == x && x != []
    ensures Texts(Distinct(tried, {}, locale)) == [x]
  {
    AllSeen(tried[1..], x, {} + {x}, locale);
    assert Distinct(tried, {}, locale) == [Segment(x, x)];
  }

  lemma OneFolds(x: string, locale: Locale)
    requires Normalize(x, locale) == x && x != []
    ensures Folded([x], locale) == {x}
  {
    FoldedCons(x, [], locale);
    assert [x] + [] == [x];
  }

  lemma WordTried(x: string, canonical: string, parts: seq<string>, locale: Locale)
    requires Normalize(x, locale) == x && x != [] && canonical == x && parts == [x]
    ensures Texts(Distinct(parts + parts + [x, canonical], {}, locale)) == [x]
  {
    var tried := parts + parts + [x, canonical];
    assert forall i | 0 <= i < |tried| :: tried[i] == x;
    RepeatedWord(tried, x, locale);
  }

  /** A search for a word tries just that word. */
  lemma WordCandidates(x: string, locale: Locale)
    requires SplitComposite(x) == [x] && Trim(x) == x && x != [] && Normalize(x, locale) == x
    ensures ExactCandidates(x, locale) == [x] && FoldedCandidates(x, locale) == {x}
  {
    WordTried(x, Canonical(x, locale), SplitComposite(x), locale);
    OneFolds(x, locale);
  }
}
