/**
 The number a merged group gets: it names exactly the segments that the numbers
 of the group named, each once and in order.
 */
module MergedNumbers {
  import opened Basics
  import opened Sorting
  import opened Ledger
  import opened OrderAlias
  import opened NumberFolding
  import opened Consolidation

  // ---------- the parts ----------

  lemma {:induction false} DistinctValuesAre(parts: seq<string>, seen: set<string>)
    ensures var values := DistinctValues(parts, seen);
            && (forall x :: x in Keys(values) <==> x in parts && x != [] && x !in seen)
            && forall i, j | 0 <= i < j < |values| :: values[i].key != values[j].key
  {
    if parts != [] {
      var first := parts[0];
      if first == [] || first in seen {
        DistinctValuesAre(parts[1..], seen);
      } else {
        DistinctValuesAre(parts[1..], seen + {first});
        var rest := DistinctValues(parts[1..], seen + {first});
        KeysCons(Segment(first, first), rest);
        forall j | 0 <= j < |rest|
          ensures rest[j].key != first
        {
          assert rest[j].key in Keys(rest);
        }
      }
    }
  }

  lemma {:induction false} FoldAllIs(parts: seq<string>, locale: Locale)
    ensures forall x :: x in FoldAll(parts, locale) && x != [] <==> x in Folded(parts, locale)
  {
    if parts != [] {
      FoldAllIs(parts[1..], locale);
      assert parts == [parts[0]] + parts[1..];
      FoldedCons(parts[0], parts[1..], locale);
    }
  }

  lemma {:induction false} FoldAllSegments(parts: seq<string>, locale: Locale)
    requires FoldsByChar(locale) && AllWhole(parts)
    ensures forall x :: x in Folded(parts, locale) <==>
              exists p | p in FoldAll(parts, locale) :: x in Segments(p, locale)
  {
    if parts != [] {
      assert Whole(parts[0]) && AllWhole(parts[1..]);
      FoldAllSegments(parts[1..], locale);
      FoldedCons(parts[0], parts[1..], locale);
      SegmentsOfWhole(parts[0], locale);
      SegmentsOfFolded(parts[0], locale);
      assert parts == [parts[0]] + parts[1..];
    }
  }

  /** The parts of one row of the group. */
  function PartsOf(orderNo: string, locale: Locale): seq<string> {
    if IsComposite(orderNo) then FoldAll(SplitComposite(orderNo), locale) else [Normalize(orderNo, locale)]
  }

  lemma PartsOfSegments(orderNo: string, locale: Locale, x: string)
    requires FoldsByChar(locale)
    ensures x in Segments(orderNo, locale) <==> exists p | p in PartsOf(orderNo, locale) :: x in Segments(p, locale)
  {
    if IsComposite(orderNo) {
      SegmentsAreWhole(orderNo);
      FoldAllSegments(SplitComposite(orderNo), locale);
    } else {
      SegmentsOfFolded(orderNo, locale);
      assert Normalize(orderNo, locale) in PartsOf(orderNo, locale);
    }
  }

  lemma {:induction false} AllPartsFrom(b: Book, rows: seq<OrderId>, locale: Locale)
    requires forall o | o in rows :: o in b.orders
    ensures forall p :: p in AllParts(b, rows, locale) <==>
              exists o | o in rows :: p in PartsOf(b.orders[o].orderNo, locale)
  {
    if rows != [] {
      AllPartsFrom(b, rows[1..], locale);
      assert AllParts(b, rows, locale) == PartsOf(b.orders[rows[0]].orderNo, locale) + AllParts(b, rows[1..], locale);
      assert rows == [rows[0]] + rows[1..];
    }
  }

  // ---------- the segments of a group ----------

  /** All segments the numbers of the rows name. */
  ghost function GroupSegments(b: Book, rows: seq<OrderId>, locale: Locale): set<string>
    requires forall o | o in rows :: o in b.orders
  {
    set o, x | o in rows && x in Segments(b.orders[o].orderNo, locale) :: x
  }

  lemma PartsNameSegments(b: Book, rows: seq<OrderId>, locale: Locale, x: string)
    requires FoldsByChar(locale) && forall o | o in rows :: o in b.orders
    ensures x in GroupSegments(b, rows, locale) <==>
              exists p | p in AllParts(b, rows, locale) :: x in Segments(p, locale)
  {
    AllPartsFrom(b, rows, locale);
    forall o | o in rows {
      PartsOfSegments(b.orders[o].orderNo, locale, x);
    }
    if p :| p in AllParts(b, rows, locale) && x in Segments(p, locale) {
      var o :| o in rows && p in PartsOf(b.orders[o].orderNo, locale);
      assert x in Segments(b.orders[o].orderNo, locale);
    }
    if x in GroupSegments(b, rows, locale) {
      var o :| o in rows && x in Segments(b.orders[o].orderNo, locale);
      var p :| p in PartsOf(b.orders[o].orderNo, locale) && x in Segments(p, locale);
      assert p in AllParts(b, rows, locale);
    }
  }

  /** The texts a group number is joined from are its non-empty parts. */
  lemma JoinedTexts(parts: seq<string>, locale: Locale)
    ensures forall t :: t in Texts(Sort(DistinctValues(parts, {}), ByKey(locale))) <==> t in parts && t != []
  {
    var values := DistinctValues(parts, {});
    var sorted := Sort(values, ByKey(locale));
    DistinctValuesAre(parts, {});
    SelfNamed(parts, {});
    SortKeepsKeys(values, locale);
    forall t | t in Texts(sorted)
      ensures t in parts && t != []
    {
      var i :| 0 <= i < |sorted| && sorted[i].text == t;
      assert sorted[i] in values;
      assert sorted[i].key in Keys(values);
    }
    forall t | t in parts && t != []
      ensures t in Texts(sorted)
    {
      assert t in Keys(values);
      var i :| 0 <= i < |values| && values[i].key == t;
      assert values[i] in sorted;
      var j :| 0 <= j < |sorted| && sorted[j] == values[i];
      assert Texts(sorted)[j] == t;
    }
  }

  lemma {:induction false} SelfNamed(parts: seq<string>, seen: set<string>)
    ensures forall v | v in DistinctValues(parts, seen) :: v.text == v.key
  {
    if parts != [] {
      SelfNamed(parts[1..], seen);
      SelfNamed(parts[1..], seen + {parts[0]});
    }
  }

  lemma GroupNumberSegments(b: Book, rows: seq<OrderId>, locale: Locale)
    requires FoldsByChar(locale) && forall o | o in rows :: o in b.orders
    ensures Segments(GroupNumber(b, rows, locale), locale) == GroupSegments(b, rows, locale)
  {
    var parts := AllParts(b, rows, locale);
    var texts := Texts(Sort(DistinctValues(parts, {}), ByKey(locale)));
    SegmentsOfJoin(texts, locale);
    JoinedTexts(parts, locale);
    assert Segments([], locale) == {} by {
      assert SplitOn([], '/') == [[]] && SplitParts([[]]) == [];
    }
    forall x
      ensures x in Segments(GroupNumber(b, rows, locale), locale) <==> x in GroupSegments(b, rows, locale)
    {
      PartsNameSegments(b, rows, locale, x);
    }
  }

  /** The number of a merged group, kept or new, names exactly the segments of the
      whole group. */
  lemma MergedNumberSegments(b: Book, rows: seq<OrderId>, locale: Locale)
    requires FoldsByChar(locale) && forall o | o in rows :: o in b.orders
    ensures Segments(TargetNumber(b, rows, locale), locale) == GroupSegments(b, rows, locale)
  {
    GroupNumberSegments(b, rows, locale);
    SegmentsOfFolded(GroupNumber(b, rows, locale), locale);
    SegmentsOfFolded(TargetNumber(b, rows, locale), locale);
  }

  // ---------- its spelling ----------

  /** A number that is composite or a single segment as it stands. */
  predicate Tidy(orderNo: string) {
    IsComposite(orderNo) || Whole(Trim(orderNo))
  }

  /** A whole segment in its folded form. */
  ghost predicate FoldedWhole(part: string, locale: Locale) {
    Whole(part) && Normalize(part, locale) == part
  }

  lemma NormalizedIsFolded(part: string, locale: Locale)
    requires FoldsByChar(locale) && Whole(Trim(part))
    ensures FoldedWhole(Normalize(part, locale), locale)
  {
    var fold: char -> char :| FoldsWith(locale, fold);
    NormalizeFold(part, locale, fold);
    WholeFold(Trim(part), fold);
    var folded := Fold(Trim(part), fold);
    assert Fold(folded, fold) == folded;
  }

  lemma {:induction false} FoldAllFolded(parts: seq<string>, locale: Locale)
    requires FoldsByChar(locale) && AllWhole(parts)
    ensures forall p | p in FoldAll(parts, locale) :: FoldedWhole(p, locale)
  {
    if parts != [] {
      assert Whole(parts[0]) && AllWhole(parts[1..]);
      NormalizedIsFolded(parts[0], locale);
      FoldAllFolded(parts[1..], locale);
    }
  }

  lemma TidyParts(b: Book, rows: seq<OrderId>, locale: Locale)
    requires FoldsByChar(locale) && forall o | o in rows :: o in b.orders && Tidy(b.orders[o].orderNo)
    ensures forall p | p in AllParts(b, rows, locale) :: FoldedWhole(p, locale)
  {
    AllPartsFrom(b, rows, locale);
    forall p | p in AllParts(b, rows, locale)
      ensures FoldedWhole(p, locale)
    {
      var o :| o in rows && p in PartsOf(b.orders[o].orderNo, locale);
      SegmentsAreWhole(b.orders[o].orderNo);
      if IsComposite(b.orders[o].orderNo) {
        FoldAllFolded(SplitComposite(b.orders[o].orderNo), locale);
      } else {
        NormalizedIsFolded(b.orders[o].orderNo, locale);
      }
    }
  }

  lemma {:induction false} FoldEachFolded(texts: seq<string>, locale: Locale, fold: char -> char)
    requires FoldsWith(locale, fold) && forall t | t in texts :: FoldedWhole(t, locale)
    ensures FoldEach(texts, fold) == texts
  {
    if texts != [] {
      assert texts[0] in texts;
      NormalizeFold(texts[0], locale, fold);
      FoldEachFolded(texts[1..], locale, fold);
    }
  }

  /** A number joined from folded whole segments folds to itself and splits back. */
  lemma JoinedIsFolded(texts: seq<string>, locale: Locale)
    requires FoldsByChar(locale) && forall t | t in texts :: FoldedWhole(t, locale)
    ensures Trim(Join(texts, '/')) == Join(texts, '/') && Normalize(Join(texts, '/'), locale) == Join(texts, '/')
    ensures SplitComposite(Join(texts, '/')) == texts
  {
    var fold: char -> char :| FoldsWith(locale, fold);
    assert AllWhole(texts) by {
      forall i | 0 <= i < |texts|
        ensures Whole(texts[i])
      {
        assert texts[i] in texts;
      }
    }
    JoinTrimmed(texts);
    JoinFold(texts, fold);
    FoldEachFolded(texts, locale, fold);
    NormalizeFold(Join(texts, '/'), locale, fold);
    if texts == [] {
      assert SplitOn([], '/') == [[]] && SplitParts([[]]) == [];
    } else {
      SplitOfJoin(texts);
    }
  }

  /** A number joined from different folded segments in order is canonical. */
  lemma JoinedIsCanonical(sorted: seq<Segment>, locale: Locale)
    requires FoldsByChar(locale) && Sorted(sorted, ByKey(locale)) && WellKeyed(sorted, locale)
    requires forall t | t in Texts(sorted) :: FoldedWhole(t, locale)
    ensures Canonical(Join(Texts(sorted), '/'), locale) == Join(Texts(sorted), '/')
  {
    JoinedIsFolded(Texts(sorted), locale);
    DistinctOfTexts(sorted, {}, locale);
    SortOfOrdered(sorted, locale);
  }

  lemma GroupNumberIsCanonical(b: Book, rows: seq<OrderId>, locale: Locale)
    requires FoldsByChar(locale) && TotalPreorder(locale)
    requires forall o | o in rows :: o in b.orders && Tidy(b.orders[o].orderNo)
    ensures var no := GroupNumber(b, rows, locale); Canonical(no, locale) == no && Normalize(no, locale) == no
  {
    var parts := AllParts(b, rows, locale);
    var values := DistinctValues(parts, {});
    var sorted := Sort(values, ByKey(locale));
    TidyParts(b, rows, locale);
    JoinedTexts(parts, locale);
    JoinedIsFolded(Texts(sorted), locale);
    SortOrdered(values, locale);
    DistinctValuesAre(parts, {});
    SelfNamed(parts, {});
    SortKeepsKeys(values, locale);
    forall i | 0 <= i < |sorted|
      ensures sorted[i].key == Normalize(sorted[i].text, locale) && sorted[i].key != []
    {
      assert sorted[i] in values && Texts(sorted)[i] in Texts(sorted);
    }
    JoinedIsCanonical(sorted, locale);
  }

  /** Where all numbers of the group are tidy, the merged number folds to a
      canonical number: its segments are different and in order. */
  lemma MergedNumberIsCanonical(b: Book, rows: seq<OrderId>, locale: Locale)
    requires FoldsByChar(locale) && TotalPreorder(locale)
    requires forall o | o in rows :: o in b.orders && Tidy(b.orders[o].orderNo)
    ensures var folded := Normalize(TargetNumber(b, rows, locale), locale); Canonical(folded, locale) == folded
  {
    GroupNumberIsCanonical(b, rows, locale);
  }
}
