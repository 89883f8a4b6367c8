/**
 Case folding and the segments of an order number: where a locale folds character
 by character and leaves separators alone, splitting and folding commute.
 */
module NumberFolding {
  import opened Basics
  import opened Sorting
  import opened OrderAlias

  function Fold(s: string, fold: char -> char): (r: string)
    ensures |r| == |s| && forall i | 0 <= i < |s| :: r[i] == fold(s[i])
  {
    seq(|s|, i requires 0 <= i < |s| => fold(s[i]))
  }

  function FoldEach(parts: seq<string>, fold: char -> char): (r: seq<string>)
    ensures |r| == |parts| && forall i | 0 <= i < |parts| :: r[i] == Fold(parts[i], fold)
  {
    if parts == [] then [] else [Fold(parts[0], fold)] + FoldEach(parts[1..], fold)
  }

  /** Folding twice is folding once, and white space, slash and dash stay what they are. */
  ghost predicate KeepsSeparators(fold: char -> char) {
    && (forall c :: fold(fold(c)) == fold(c))
    && (forall c :: IsSpace(fold(c)) <==> IsSpace(c))
    && (forall c :: fold(c) == '/' <==> c == '/')
    && (forall c :: fold(c) == '-' <==> c == '-')
  }

  ghost predicate FoldsWith(locale: Locale, fold: char -> char) {
    KeepsSeparators(fold) && forall s :: locale.lower(s) == Fold(s, fold)
  }

  /** The locale folds character by character and leaves separators alone. */
  ghost predicate FoldsByChar(locale: Locale) {
    exists fold: char -> char :: FoldsWith(locale, fold)
  }

  // ---------- splitting and folding commute ----------

  lemma FoldTake(s: string, n: nat, fold: char -> char)
    requires n <= |s|
    ensures Fold(s, fold)[..n] == Fold(s[..n], fold) && Fold(s, fold)[n..] == Fold(s[n..], fold)
  {
  }

  lemma {:induction false} TrimFold(s: string, fold: char -> char)
    requires KeepsSeparators(fold)
    ensures Trim(Fold(s, fold)) == Fold(Trim(s), fold)
    decreases |s|
  {
    if s != [] {
      var folded := Fold(s, fold);
      assert IsSpace(folded[0]) <==> IsSpace(s[0]);
      assert IsSpace(folded[|s| - 1]) <==> IsSpace(s[|s| - 1]);
      FoldTake(s, 1, fold);
      FoldTake(s, |s| - 1, fold);
      if IsSpace(s[0]) {
        TrimFold(s[1..], fold);
      } else if IsSpace(s[|s| - 1]) {
        TrimFold(s[..|s| - 1], fold);
      }
    }
  }

  lemma {:induction false} SplitOnFold(s: string, fold: char -> char)
    requires KeepsSeparators(fold)
    ensures SplitOn(Fold(s, fold), '/') == FoldEach(SplitOn(s, '/'), fold)
  {
    if s != [] {
      var rest := SplitOn(s[1..], '/');
      SplitOnFold(s[1..], fold);
      FoldTake(s, 1, fold);
      assert Fold([s[0]] + rest[0], fold) == [fold(s[0])] + Fold(rest[0], fold);
      assert Fold([], fold) == [];
      assert ([[s[0]] + rest[0]] + rest[1..])[1..] == rest[1..] && ([[]] + rest)[1..] == rest;
    } else {
      assert Fold([], fold) == [];
    }
  }

  lemma {:induction false} WordLengthFold(s: string, fold: char -> char)
    requires KeepsSeparators(fold)
    ensures WordLength(Fold(s, fold)) == WordLength(s)
  {
    if s != [] {
      FoldTake(s, 1, fold);
      WordLengthFold(s[1..], fold);
    }
  }

  lemma {:induction false} WordsFold(s: string, fold: char -> char)
    requires KeepsSeparators(fold)
    ensures Words(Fold(s, fold)) == FoldEach(Words(s), fold)
    decreases |s|
  {
    if s != [] {
      assert IsSpace(Fold(s, fold)[0]) <==> IsSpace(s[0]);
      if IsSpace(s[0]) {
        FoldTake(s, 1, fold);
        WordsFold(s[1..], fold);
      } else {
        var n := WordLength(s);
        WordLengthFold(s, fold);
        FoldTake(s, n, fold);
        WordsFold(s[n..], fold);
        assert ([s[..n]] + Words(s[n..]))[1..] == Words(s[n..]);
      }
    }
  }

  lemma OrderLikeFold(w: string, fold: char -> char)
    requires KeepsSeparators(fold)
    ensures OrderLike(Fold(w, fold)) <==> OrderLike(w)
  {
    if i :| 0 < i < |w| - 1 && w[i] == '-' {
      assert Fold(w, fold)[i] == '-';
    }
  }

  lemma {:induction false} FoldEachBoth(p: seq<string>, q: seq<string>, fold: char -> char)
    ensures FoldEach(p + q, fold) == FoldEach(p, fold) + FoldEach(q, fold)
  {
    if p == [] {
      assert p + q == q;
    } else {
      assert (p + q)[1..] == p[1..] + q;
      FoldEachBoth(p[1..], q, fold);
    }
  }

  lemma {:induction false} OrderLikeOnlyFold(words: seq<string>, fold: char -> char)
    requires KeepsSeparators(fold)
    ensures OrderLikeOnly(FoldEach(words, fold)) == FoldEach(OrderLikeOnly(words), fold)
  {
    if words != [] {
      var first := if OrderLike(words[0]) then [words[0]] else [];
      OrderLikeOnlyFold(words[1..], fold);
      OrderLikeFold(words[0], fold);
      FoldEachBoth(first, OrderLikeOnly(words[1..]), fold);
      OneFolded(words[0], fold);
    }
  }

  lemma OneFolded(part: string, fold: char -> char)
    ensures FoldEach([part], fold) == [Fold(part, fold)] && FoldEach([], fold) == []
  {
    assert [part][1..] == [];
  }

  lemma SplitPartFold(part: string, fold: char -> char)
    requires KeepsSeparators(fold)
    ensures SplitPart(Fold(part, fold)) == FoldEach(SplitPart(part), fold)
  {
    TrimFold(part, fold);
    WordsFold(Trim(part), fold);
    OrderLikeOnlyFold(Words(Trim(part)), fold);
    OneFolded(Trim(part), fold);
  }

  lemma {:induction false} SplitPartsFold(parts: seq<string>, fold: char -> char)
    requires KeepsSeparators(fold)
    ensures SplitParts(FoldEach(parts, fold)) == FoldEach(SplitParts(parts), fold)
  {
    if parts != [] {
      var rest := FoldEach(parts[1..], fold);
      SplitPartsFold(parts[1..], fold);
      SplitPartFold(parts[0], fold);
      FoldEachBoth(SplitPart(parts[0]), SplitParts(parts[1..]), fold);
      assert ([Fold(parts[0], fold)] + rest)[1..] == rest;
    }
  }

  lemma {:induction false} TrimNonEmptyFold(parts: seq<string>, fold: char -> char)
    requires KeepsSeparators(fold)
    ensures TrimNonEmpty(FoldEach(parts, fold)) == FoldEach(TrimNonEmpty(parts), fold)
  {
    if parts != [] {
      var rest := FoldEach(parts[1..], fold);
      TrimNonEmptyFold(parts[1..], fold);
      TrimFold(parts[0], fold);
      FoldEachBoth(if Trim(parts[0]) == [] then [] else [Trim(parts[0])], TrimNonEmpty(parts[1..]), fold);
      OneFolded(Trim(parts[0]), fold);
      assert ([Fold(parts[0], fold)] + rest)[1..] == rest;
    }
  }

  lemma SplitCompositeFold(s: string, fold: char -> char)
    requires KeepsSeparators(fold)
    ensures SplitComposite(Fold(s, fold)) == FoldEach(SplitComposite(s), fold)
  {
    SplitOnFold(s, fold);
    SplitPartsFold(SplitOn(s, '/'), fold);
    TrimNonEmptyFold(SplitParts(SplitOn(s, '/')), fold);
  }

  lemma {:induction false} JoinFold(parts: seq<string>, fold: char -> char)
    requires KeepsSeparators(fold)
    ensures Fold(Join(parts, '/'), fold) == Join(FoldEach(parts, fold), '/')
  {
    if |parts| == 1 {
      OneFolded(parts[0], fold);
    } else if |parts| > 1 {
      JoinFold(parts[1..], fold);
      assert FoldEach(parts, fold)[1..] == FoldEach(parts[1..], fold);
    }
  }

  lemma WholeFold(part: string, fold: char -> char)
    requires KeepsSeparators(fold) && Whole(part)
    ensures Whole(Fold(part, fold))
  {
    TrimFold(part, fold);
    SplitPartFold(part, fold);
    OneFolded(part, fold);
  }

  // ---------- the segments of a number ----------

  /** The folded segments a number consists of. */
  function Segments(orderNo: string, locale: Locale): set<string> {
    Folded(SplitComposite(orderNo), locale)
  }

  lemma NormalizeFold(s: string, locale: Locale, fold: char -> char)
    requires FoldsWith(locale, fold)
    ensures Normalize(s, locale) == Fold(Trim(s), fold)
    ensures Normalize(Fold(s, fold), locale) == Normalize(s, locale)
  {
    TrimFold(s, fold);
    assert Fold(Fold(Trim(s), fold), fold) == Fold(Trim(s), fold);
  }

  lemma FoldedIgnoresFold(parts: seq<string>, locale: Locale, fold: char -> char)
    requires FoldsWith(locale, fold)
    ensures Folded(FoldEach(parts, fold), locale) == Folded(parts, locale)
  {
    forall i | 0 <= i < |parts|
      ensures Normalize(FoldEach(parts, fold)[i], locale) == Normalize(parts[i], locale)
    {
      NormalizeFold(parts[i], locale, fold);
    }
  }

  /** A number and its folded form have the same segments. */
  lemma SegmentsOfFolded(s: string, locale: Locale)
    requires FoldsByChar(locale)
    ensures Segments(Normalize(s, locale), locale) == Segments(s, locale)
  {
    var fold: char -> char :| FoldsWith(locale, fold);
    NormalizeFold(s, locale, fold);
    SplitCompositeFold(Trim(s), fold);
    SplitOfTrim(s);
    FoldedIgnoresFold(SplitComposite(s), locale, fold);
  }

  lemma SegmentsOfWhole(part: string, locale: Locale)
    requires Whole(part)
    ensures Segments(part, locale) == {Normalize(part, locale)} - {[]}
  {
    SplitOfJoin([part]);
    assert SplitComposite(part) == [part];
  }

  // ---------- the segments of a joined number ----------

  lemma {:induction false} SplitOnBoth(a: string, b: string)
    ensures SplitOn(a + ['/'] + b, '/') == SplitOn(a, '/') + SplitOn(b, '/')
  {
    var s := a + ['/'] + b;
    if a == [] {
      assert s[1..] == b;
    } else {
      assert s[1..] == a[1..] + ['/'] + b;
      SplitOnBoth(a[1..], b);
    }
  }

  lemma {:induction false} SplitPartsBoth(p: seq<string>, q: seq<string>)
    ensures SplitParts(p + q) == SplitParts(p) + SplitParts(q)
  {
    if p == [] {
      assert p + q == q;
    } else {
      assert (p + q)[1..] == p[1..] + q;
      SplitPartsBoth(p[1..], q);
    }
  }

  lemma {:induction false} TrimNonEmptyBoth(p: seq<string>, q: seq<string>)
    ensures TrimNonEmpty(p + q) == TrimNonEmpty(p) + TrimNonEmpty(q)
  {
    if p == [] {
      assert p + q == q;
    } else {
      assert (p + q)[1..] == p[1..] + q;
      TrimNonEmptyBoth(p[1..], q);
    }
  }

  lemma FoldedBoth(p: seq<string>, q: seq<string>, locale: Locale)
    ensures Folded(p + q, locale) == Folded(p, locale) + Folded(q, locale)
  {
    var all := p + q;
    assert forall i | 0 <= i < |p| :: all[i] == p[i];
    forall k | k in Folded(q, locale)
      ensures k in Folded(all, locale)
    {
      var i :| 0 <= i < |q| && Normalize(q[i], locale) == k;
      assert all[|p| + i] == q[i];
    }
  }

  lemma SegmentsOfBoth(a: string, b: string, locale: Locale)
    ensures Segments(a + ['/'] + b, locale) == Segments(a, locale) + Segments(b, locale)
  {
    SplitOnBoth(a, b);
    SplitPartsBoth(SplitOn(a, '/'), SplitOn(b, '/'));
    TrimNonEmptyBoth(SplitParts(SplitOn(a, '/')), SplitParts(SplitOn(b, '/')));
    FoldedBoth(SplitComposite(a), SplitComposite(b), locale);
  }

  /** A joined number has exactly the segments of what it was joined from. */
  lemma {:induction false} SegmentsOfJoin(parts: seq<string>, locale: Locale)
    ensures forall x :: x in Segments(Join(parts, '/'), locale) <==> exists p | p in parts :: x in Segments(p, locale)
  {
    if parts == [] {
      assert SplitOn([], '/') == [[]] && SplitParts([[]]) == [];
    } else if |parts| > 1 {
      SegmentsOfJoin(parts[1..], locale);
      SegmentsOfBoth(parts[0], Join(parts[1..], '/'), locale);
      assert parts == [parts[0]] + parts[1..];
    }
  }
}
