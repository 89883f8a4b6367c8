/**
 Consolidating twice: which orders a second pass still merges, told by the orders
 before the first pass.
 */
module SecondPass {
  import opened Basics
  import opened Sorting
  import opened Ledger
  import opened LedgerMerges
  import opened OrderAlias
  import opened Consolidation
  import opened GroupKeys
  import opened ConsolidationPass
  import opened MergedNumbers

  // ---------- when a group calls for no merge ----------

  ghost predicate OneSpelling(numbers: set<string>, locale: Locale) {
    forall s, t | s in numbers && t in numbers :: Normalize(s, locale) == Normalize(t, locale)
  }

  ghost predicate OnePart(numbers: set<string>, locale: Locale) {
    forall s, t | s in numbers && t in numbers ::
      forall x, y | x in NumberParts(s, locale) && y in NumberParts(t, locale) :: x == y
  }

  ghost function NumbersOf(b: Book, rows: seq<OrderId>): set<string>
    requires AllIn(b, rows)
  {
    set o | o in rows :: b.orders[o].orderNo
  }

  lemma {:induction false} FoldedNumbersAre(b: Book, rows: seq<OrderId>, locale: Locale)
    requires AllIn(b, rows)
    ensures forall x :: x in FoldedNumbers(b, rows, locale) <==>
              exists o | o in rows :: x == Normalize(b.orders[o].orderNo, locale)
  {
    if rows != [] {
      FoldedNumbersAre(b, rows[1..], locale);
      assert rows == [rows[0]] + rows[1..];
    }
  }

  lemma AtMostOne<T>(s: set<T>)
    ensures |s| <= 1 <==> forall x, y | x in s && y in s :: x == y
  {
    if |s| > 1 {
      var x :| x in s;
      assert |s - {x}| == |s| - 1;
      var y :| y in s - {x};
    } else if s != {} {
      var x :| x in s;
      assert |s - {x}| == |s| - 1;
    }
  }

  lemma OneSpellingExactly(b: Book, rows: seq<OrderId>, locale: Locale)
    requires AllIn(b, rows)
    ensures |FoldedNumbers(b, rows, locale)| <= 1 <==> OneSpelling(NumbersOf(b, rows), locale)
  {
    var folded := FoldedNumbers(b, rows, locale);
    FoldedNumbersAre(b, rows, locale);
    AtMostOne(folded);
    if OneSpelling(NumbersOf(b, rows), locale) {
      forall x, y | x in folded && y in folded
        ensures x == y
      {
        var o :| o in rows && x == Normalize(b.orders[o].orderNo, locale);
        var p :| p in rows && y == Normalize(b.orders[p].orderNo, locale);
      }
    } else {
      var s, t :| s in NumbersOf(b, rows) && t in NumbersOf(b, rows) && Normalize(s, locale) != Normalize(t, locale);
      assert Normalize(s, locale) in folded && Normalize(t, locale) in folded;
    }
  }

  lemma {:induction false} AllPartsAre(b: Book, rows: seq<OrderId>, locale: Locale)
    requires AllIn(b, rows)
    ensures forall x :: x in AllParts(b, rows, locale) && x != [] <==>
              exists o | o in rows :: x in NumberParts(b.orders[o].orderNo, locale)
  {
    if rows != [] {
      AllPartsAre(b, rows[1..], locale);
      FoldAllIs(SplitComposite(b.orders[rows[0]].orderNo), locale);
      assert rows == [rows[0]] + rows[1..];
    }
  }

  lemma FewDistinct(parts: seq<string>)
    ensures |DistinctValues(parts, {})| <= 1 <==>
            forall x, y | x in parts && y in parts && x != [] && y != [] :: x == y
  {
    var values := DistinctValues(parts, {});
    DistinctValuesAre(parts, {});
    if |values| > 1 {
      assert values[0].key in Keys(values) && values[1].key in Keys(values);
    } else {
      forall x, y | x in parts && y in parts && x != [] && y != []
        ensures x == y
      {
        assert x in Keys(values) && y in Keys(values);
      }
    }
  }

  lemma OnePartExactly(b: Book, rows: seq<OrderId>, locale: Locale)
    requires AllIn(b, rows)
    ensures |DistinctValues(AllParts(b, rows, locale), {})| <= 1 <==> OnePart(NumbersOf(b, rows), locale)
  {
    var parts := AllParts(b, rows, locale);
    AllPartsAre(b, rows, locale);
    FewDistinct(parts);
    if OnePart(NumbersOf(b, rows), locale) {
      forall x, y | x in parts && y in parts && x != [] && y != []
        ensures x == y
      {
        var o :| o in rows && x in NumberParts(b.orders[o].orderNo, locale);
        var p :| p in rows && y in NumberParts(b.orders[p].orderNo, locale);
        assert b.orders[o].orderNo in NumbersOf(b, rows) && b.orders[p].orderNo in NumbersOf(b, rows);
      }
    } else {
      var s, t, x, y :| s in NumbersOf(b, rows) && t in NumbersOf(b, rows) && x in NumberParts(s, locale) &&
        y in NumberParts(t, locale) && x != y;
      assert x in parts && x != [] && y in parts && y != [];
    }
  }

  /** A group is skipped exactly when its numbers fold to one number, or all
      consist of one same part. */
  lemma SkippedExactly(b: Book, rows: seq<OrderId>, locale: Locale)
    requires AllIn(b, rows)
    ensures Skipped(b, rows, locale) <==>
              OneSpelling(NumbersOf(b, rows), locale) || OnePart(NumbersOf(b, rows), locale)
  {
    OneSpellingExactly(b, rows, locale);
    OnePartExactly(b, rows, locale);
  }

  // ---------- what a pass makes of each order ----------

  /** The order's group is merged. */
  ghost predicate IsMerged(b: Book, listed: seq<OrderId>, o: OrderId, locale: Locale)
    requires AllIn(b, listed) && o in listed
  {
    KeyOf(b, o).1 != [] && !Idle(b, listed, KeyOf(b, o), locale)
  }

  /** The number that stands for the order after the pass. */
  ghost function ResultNo(b: Book, listed: seq<OrderId>, o: OrderId, locale: Locale): string
    requires AllIn(b, listed) && o in listed
  {
    if IsMerged(b, listed, o, locale) then TargetNumber(b, RowsWith(b, listed, KeyOf(b, o)), locale)
    else b.orders[o].orderNo
  }

  ghost function ResultKey(b: Book, listed: seq<OrderId>, o: OrderId, locale: Locale): Key
    requires AllIn(b, listed) && o in listed
  {
    (b.orders[o].invoiceId, GroupKey(ResultNo(b, listed, o, locale)))
  }

  /** The numbers a second pass finds under a key. */
  ghost function ResultNumbers(b: Book, listed: seq<OrderId>, key: Key, locale: Locale): set<string>
    requires AllIn(b, listed)
  {
    set o | o in listed && ResultKey(b, listed, o, locale) == key :: ResultNo(b, listed, o, locale)
  }

  /** The merged number of `o` falls into one group with what `p` becomes, and folds differently. */
  ghost predicate Meet(b: Book, listed: seq<OrderId>, o: OrderId, p: OrderId, locale: Locale)
    requires AllIn(b, listed)
  {
    && o in listed && p in listed && IsMerged(b, listed, o, locale)
    && ResultKey(b, listed, o, locale) == ResultKey(b, listed, p, locale) && ResultKey(b, listed, o, locale).1 != []
    && Normalize(ResultNo(b, listed, o, locale), locale) != Normalize(ResultNo(b, listed, p, locale), locale)
  }

  /** No merged number meets another resulting number, except where all numbers of
      that group consist of one same part. */
  ghost predicate Settled(b: Book, listed: seq<OrderId>, locale: Locale)
    requires AllIn(b, listed)
  {
    forall o, p | Meet(b, listed, o, p, locale) ::
      OnePart(ResultNumbers(b, listed, ResultKey(b, listed, o, locale), locale), locale)
  }

  ghost predicate KeySettled(b: Book, listed: seq<OrderId>, key: Key, locale: Locale)
    requires AllIn(b, listed)
  {
    var numbers := ResultNumbers(b, listed, key, locale);
    OneSpelling(numbers, locale) || OnePart(numbers, locale)
  }

  /** Where no merged number arrives, the group is a part of one the first pass skipped. */
  lemma UnmergedIsSettled(b: Book, listed: seq<OrderId>, key: Key, locale: Locale)
    requires AllIn(b, listed) && key.1 != []
    requires forall o | o in listed && ResultKey(b, listed, o, locale) == key :: !IsMerged(b, listed, o, locale)
    ensures KeySettled(b, listed, key, locale)
  {
    var numbers, rows := ResultNumbers(b, listed, key, locale), RowsWith(b, listed, key);
    forall o | o in listed && ResultKey(b, listed, o, locale) == key
      ensures o in rows && Idle(b, listed, key, locale) && ResultNo(b, listed, o, locale) in NumbersOf(b, rows)
    {
      assert KeyOf(b, o) == key;
    }
    SkippedExactly(b, rows, locale);
    assert numbers <= NumbersOf(b, rows);
  }

  lemma MergedIsSettled(b: Book, listed: seq<OrderId>, o: OrderId, locale: Locale)
    requires AllIn(b, listed) && Settled(b, listed, locale)
    requires o in listed && IsMerged(b, listed, o, locale) && ResultKey(b, listed, o, locale).1 != []
    ensures KeySettled(b, listed, ResultKey(b, listed, o, locale), locale)
  {
    var key := ResultKey(b, listed, o, locale);
    var numbers := ResultNumbers(b, listed, key, locale);
    if !OneSpelling(numbers, locale) {
      var s, t :| s in numbers && t in numbers && Normalize(s, locale) != Normalize(t, locale);
      var p :| p in listed && ResultKey(b, listed, p, locale) == key && ResultNo(b, listed, p, locale) == s;
      var q :| q in listed && ResultKey(b, listed, q, locale) == key && ResultNo(b, listed, q, locale) == t;
      assert Meet(b, listed, o, p, locale) || Meet(b, listed, o, q, locale);
    }
  }

  /** The condition is the same, key by key. */
  lemma SettledByKey(b: Book, listed: seq<OrderId>, locale: Locale)
    requires AllIn(b, listed)
    ensures Settled(b, listed, locale) <==> forall key: Key | key.1 != [] :: KeySettled(b, listed, key, locale)
  {
    if Settled(b, listed, locale) {
      forall key: Key | key.1 != []
        ensures KeySettled(b, listed, key, locale)
      {
        if o :| o in listed && ResultKey(b, listed, o, locale) == key && IsMerged(b, listed, o, locale) {
          MergedIsSettled(b, listed, o, locale);
        } else {
          UnmergedIsSettled(b, listed, key, locale);
        }
      }
    } else {
      var o, p :| Meet(b, listed, o, p, locale) &&
        !OnePart(ResultNumbers(b, listed, ResultKey(b, listed, o, locale), locale), locale);
      var numbers := ResultNumbers(b, listed, ResultKey(b, listed, o, locale), locale);
      assert ResultNo(b, listed, o, locale) in numbers && ResultNo(b, listed, p, locale) in numbers;
      assert !KeySettled(b, listed, ResultKey(b, listed, o, locale), locale);
    }
  }

  // ---------- the second pass ----------

  /** The orders in scope after the first pass, in whatever order. */
  ghost predicate Relisted(b: Book, after: Book, listed: seq<OrderId>, relisted: seq<OrderId>) {
    forall o :: o in relisted <==> o in after.orders && (o in listed || o !in b.orders)
  }

  /** A whole first pass. */
  ghost predicate Passed(b: Book, after: Book, listed: seq<OrderId>, keys: seq<Key>, newIds: seq<OrderId>,
                         locale: Locale) {
    && AllIn(b, listed) && KeysOf(b, listed, keys) && |keys| <= |newIds|
    && (forall o | o in newIds :: o !in b.orders)
    && PassedTo(b, after, listed, keys, |keys|, newIds, locale)
  }

  /** `p` is what has become of `o`. */
  ghost predicate Became(b: Book, after: Book, listed: seq<OrderId>, o: OrderId, p: OrderId, locale: Locale)
    requires AllIn(b, listed)
  {
    && o in listed && p in after.orders
    && after.orders[p].orderNo == ResultNo(b, listed, o, locale)
    && after.orders[p].invoiceId == b.orders[o].invoiceId
  }

  lemma KeptBecomesItself(b: Book, after: Book, listed: seq<OrderId>, keys: seq<Key>, newIds: seq<OrderId>, o: OrderId,
                          locale: Locale)
    requires Passed(b, after, listed, keys, newIds, locale) && o in listed && !IsMerged(b, listed, o, locale)
    ensures OrderKept(b, after, o) && Became(b, after, listed, o, o, locale)
  {
    if KeyOf(b, o) in keys {
      var i :| 0 <= i < |keys| && keys[i] == KeyOf(b, o);
      assert KeyDone(b, after, listed, keys[i], newIds[i], locale);
    } else {
      assert keys[..|keys|] == keys;
    }
  }

  /** The group of a merged order is done, and merged into one row. */
  lemma MergedBecomesOne(b: Book, after: Book, listed: seq<OrderId>, keys: seq<Key>, newIds: seq<OrderId>, o: OrderId,
                         locale: Locale)
    returns (p: OrderId)
    requires Passed(b, after, listed, keys, newIds, locale) && o in listed && IsMerged(b, listed, o, locale)
    ensures Became(b, after, listed, o, p, locale) && (p in listed || p !in b.orders)
    ensures o in after.orders ==> p == o
  {
    var i :| 0 <= i < |keys| && keys[i] == KeyOf(b, o);
    assert KeyDone(b, after, listed, keys[i], newIds[i], locale);
    p := MergeTarget(b, RowsWith(b, listed, keys[i]), newIds[i]);
    assert newIds[i] in newIds;
  }

  /** A new row has come from any order of the group that created it. */
  lemma CreatedFromOne(b: Book, after: Book, listed: seq<OrderId>, key: Key, newId: OrderId, p: OrderId,
                       locale: Locale)
    returns (o: OrderId)
    requires AllIn(b, listed) && key.1 != []
    requires KeyDone(b, after, listed, key, newId, locale) && CreatedBy(b, p, listed, key, newId, locale)
    ensures Became(b, after, listed, o, p, locale)
  {
    var rows := RowsWith(b, listed, key);
    NotSkipped(b, rows, locale);
    o := rows[0];
    assert o in rows;
  }

  /** Every order of the second listing has come from one of the first. */
  lemma ComesFromOne(b: Book, after: Book, listed: seq<OrderId>, keys: seq<Key>, newIds: seq<OrderId>, p: OrderId,
                     locale: Locale)
    returns (o: OrderId)
    requires Passed(b, after, listed, keys, newIds, locale) && p in after.orders && (p in listed || p !in b.orders)
    ensures Became(b, after, listed, o, p, locale)
  {
    if p !in listed {
      var i :| 0 <= i < |keys| && CreatedBy(b, p, listed, keys[i], newIds[i], locale);
      assert keys[i] in keys && KeyDone(b, after, listed, keys[i], newIds[i], locale);
      o := CreatedFromOne(b, after, listed, keys[i], newIds[i], p, locale);
    } else if IsMerged(b, listed, p, locale) {
      var target := MergedBecomesOne(b, after, listed, keys, newIds, p, locale);
      o := p;
    } else {
      KeptBecomesItself(b, after, listed, keys, newIds, p, locale);
      o := p;
    }
  }

  /** The second pass finds exactly the resulting numbers under each key. */
  lemma FindsResultNumbers(b: Book, after: Book, listed: seq<OrderId>, keys: seq<Key>, newIds: seq<OrderId>,
                           relisted: seq<OrderId>, key: Key, locale: Locale)
    requires Passed(b, after, listed, keys, newIds, locale) && Relisted(b, after, listed, relisted)
    ensures NumbersOf(after, RowsWith(after, relisted, key)) == ResultNumbers(b, listed, key, locale)
  {
    var found, expected := NumbersOf(after, RowsWith(after, relisted, key)), ResultNumbers(b, listed, key, locale);
    forall p | p in RowsWith(after, relisted, key)
      ensures after.orders[p].orderNo in expected
    {
      var o := ComesFromOne(b, after, listed, keys, newIds, p, locale);
      assert ResultKey(b, listed, o, locale) == key;
    }
    forall o | o in listed && ResultKey(b, listed, o, locale) == key
      ensures ResultNo(b, listed, o, locale) in found
    {
      var p := o;
      if IsMerged(b, listed, o, locale) {
        p := MergedBecomesOne(b, after, listed, keys, newIds, o, locale);
      } else {
        KeptBecomesItself(b, after, listed, keys, newIds, o, locale);
      }
      assert p in RowsWith(after, relisted, key);
    }
  }

  /** A second pass merges nothing exactly when no merged number meets another
      resulting number of its invoice in one group that is not skipped. */
  lemma SecondPassIdleExactly(b: Book, after: Book, listed: seq<OrderId>, keys: seq<Key>, newIds: seq<OrderId>,
                              relisted: seq<OrderId>, locale: Locale)
    requires Passed(b, after, listed, keys, newIds, locale) && Relisted(b, after, listed, relisted)
    ensures NothingToMerge(after, relisted, locale) <==> Settled(b, listed, locale)
  {
    forall key: Key
      ensures Idle(after, relisted, key, locale) <==> KeySettled(b, listed, key, locale)
    {
      FindsResultNumbers(b, after, listed, keys, newIds, relisted, key, locale);
      SkippedExactly(after, RowsWith(after, relisted, key), locale);
    }
    SettledByKey(b, listed, locale);
  }

  // ---------- two passes that differ ----------

  /** A number of one segment that folds to itself. */
  ghost predicate Single(no: string, locale: Locale) {
    IsWord(no) && Free(no, '/') && locale.lower(no) == no
  }

  lemma SingleNumber(no: string, locale: Locale)
    requires Single(no, locale)
    ensures SplitComposite(no) == [no] && Normalize(no, locale) == no && NumberParts(no, locale) == {no}
  {
    WordIsWhole(no);
    SplitOfJoin([no]);
  }

  /** A number joined from two single ones. */
  lemma PairNumber(s: string, t: string, locale: Locale)
    requires Single(s, locale) && Single(t, locale)
    ensures Join([s, t], '/') == s + ['/'] + t
    ensures SplitComposite(s + ['/'] + t) == [s, t] && NumberParts(s + ['/'] + t, locale) == {s, t} - {[]}
  {
    SingleNumber(s, locale);
    SingleNumber(t, locale);
    assert [s, t][1..] == [t];
    assert Join([t], '/') == t;
    WordIsWhole(s);
    WordIsWhole(t);
    SplitOfJoin([s, t]);
    FoldedOfPair(s, t, locale);
  }

  lemma FoldedOfPair(s: string, t: string, locale: Locale)
    ensures Folded([s, t], locale) == {Normalize(s, locale), Normalize(t, locale)} - {[]}
  {
    FoldedCons(t, [], locale);
    FoldedCons(s, [t], locale);
    assert [s] + [t] == [s, t] && [t] + [] == [t];
  }

  lemma PartsCons(b: Book, o: OrderId, rows: seq<OrderId>, locale: Locale)
    requires o in b.orders && AllIn(b, rows) && !IsComposite(b.orders[o].orderNo)
    ensures AllParts(b, [o] + rows, locale) == [Normalize(b.orders[o].orderNo, locale)] + AllParts(b, rows, locale)
    ensures ExistingComposite(b, [o] + rows) == ExistingComposite(b, rows)
  {
    assert ([o] + rows)[1..] == rows;
  }

  lemma PartsOfPair(b: Book, o: OrderId, p: OrderId, s: string, t: string, locale: Locale)
    requires o in b.orders && p in b.orders
    requires !IsComposite(b.orders[o].orderNo) && !IsComposite(b.orders[p].orderNo)
    requires Normalize(b.orders[o].orderNo, locale) == s && Normalize(b.orders[p].orderNo, locale) == t
    ensures AllParts(b, [o, p], locale) == [s, t] && ExistingComposite(b, [o, p]) == None
  {
    PartsCons(b, p, [], locale);
    PartsCons(b, o, [p], locale);
    assert [o] + [p] == [o, p] && [p] + [] == [p];
    assert [s] + ([t] + []) == [s, t];
  }

  lemma SortedPair(s: string, t: string, locale: Locale)
    requires s != [] && t != [] && s != t && locale.before(s, t)
    ensures Texts(Sort(DistinctValues([s, t], {}), ByKey(locale))) == [s, t]
  {
    var a, c := Segment(s, s), Segment(t, t);
    assert [s, t][1..] == [t] && [t][1..] == [];
    assert {} + {s} == {s} && [a] + [c] == [a, c];
    assert DistinctValues([t], {s}) == [c];
    assert DistinctValues([s, t], {}) == [a] + DistinctValues([t], {} + {s});
    assert [a, c][1..] == [c] && [c][1..] == [];
    assert Sort([c], ByKey(locale)) == [c];
    assert Sort([a, c], ByKey(locale)) == [a, c];
    assert Texts([c]) == [t];
  }

  /** Two single numbers are merged to the number joined from both. */
  lemma PairMerges(b: Book, o: OrderId, p: OrderId, s: string, t: string, locale: Locale)
    requires o in b.orders && p in b.orders && b.orders[o].orderNo == s && b.orders[p].orderNo == t
    requires Single(s, locale) && Single(t, locale)
    requires s != t && locale.before(s, t)
    ensures !Skipped(b, [o, p], locale) && ExistingComposite(b, [o, p]) == None
    ensures TargetNumber(b, [o, p], locale) == s + ['/'] + t
  {
    SingleNumber(s, locale);
    SingleNumber(t, locale);
    PartsOfPair(b, o, p, s, t, locale);
    SortedPair(s, t, locale);
    PairNumber(s, t, locale);
    PairNotSkipped(b, o, p, locale);
  }

  lemma PairNotSkipped(b: Book, o: OrderId, p: OrderId, locale: Locale)
    requires o in b.orders && p in b.orders
    requires var s, t := Normalize(b.orders[o].orderNo, locale), Normalize(b.orders[p].orderNo, locale);
             s != t &&
             NumberParts(b.orders[o].orderNo, locale) == {s} && NumberParts(b.orders[p].orderNo, locale) == {t}
    ensures !Skipped(b, [o, p], locale)
  {
    SkippedExactly(b, [o, p], locale);
    assert b.orders[o].orderNo in NumbersOf(b, [o, p]) && b.orders[p].orderNo in NumbersOf(b, [o, p]);
  }

  lemma RowsWithCons(b: Book, o: OrderId, rows: seq<OrderId>, key: Key)
    requires o in b.orders && AllIn(b, rows)
    ensures RowsWith(b, [o] + rows, key) == (if KeyOf(b, o) == key then [o] else []) + RowsWith(b, rows, key)
  {
    assert ([o] + rows)[1..] == rows;
  }

  lemma OneRowSkipped(b: Book, o: OrderId, locale: Locale)
    requires o in b.orders
    ensures Skipped(b, [o], locale)
  {
    FoldedNumbersCount(b, [o], locale);
  }

  /** Two single numbers of one group, and a third of another group of the same
      invoice: the one the merged number falls into. */
  ghost predicate PairAndThird(b: Book, o: OrderId, p: OrderId, q: OrderId, locale: Locale) {
    && o in b.orders && p in b.orders && q in b.orders && o != p && q != o && q != p
    && KeyOf(b, o) == KeyOf(b, p) != KeyOf(b, q) && KeyOf(b, o).0 == KeyOf(b, q).0
    && KeyOf(b, o).1 != [] && KeyOf(b, q).1 != []
    && var s, t, u := b.orders[o].orderNo, b.orders[p].orderNo, b.orders[q].orderNo;
       && Single(s, locale) && Single(t, locale) && Single(u, locale) && s != t && locale.before(s, t)
       && GroupKey(s + ['/'] + t) == GroupKey(u) && Normalize(s + ['/'] + t, locale) != u
  }

  lemma GroupsOfThree(b: Book, o: OrderId, p: OrderId, q: OrderId, key: Key, locale: Locale)
    requires PairAndThird(b, o, p, q, locale)
    ensures AllIn(b, [o, p, q])
    ensures RowsWith(b, [o, p, q], key) ==
            if key == KeyOf(b, o) then [o, p] else if key == KeyOf(b, q) then [q] else []
  {
    var one, two, three := [q], [p, q], [o, p, q];
    assert one == [q] + [] && two == [p] + one && three == [o] + two;
    RowsWithCons(b, q, [], key);
    AddRow(b, p, one, two, key, if key == KeyOf(b, q) then [q] else []);
    AddRow(b, o, two, three, key, if key == KeyOf(b, p) then [p] else if key == KeyOf(b, q) then [q] else []);
    assert [o] + [p] == [o, p] && [p] + [] == [p];
  }

  lemma AddRow(b: Book, o: OrderId, rest: seq<OrderId>, rows: seq<OrderId>, key: Key, found: seq<OrderId>)
    requires o in b.orders && AllIn(b, rest) && rows == [o] + rest && found == RowsWith(b, rest, key)
    ensures AllIn(b, rows) && RowsWith(b, rows, key) == if key == KeyOf(b, o) then [o] + found else found
  {
    RowsWithCons(b, o, rest, key);
    assert [] + found == found;
  }

  /** The first pass calls for the merge of the pair, and of nothing else. */
  lemma PairIsMerged(b: Book, o: OrderId, p: OrderId, q: OrderId, locale: Locale)
    requires PairAndThird(b, o, p, q, locale)
    ensures AllIn(b, [o, p, q])
    ensures forall key: Key :: Idle(b, [o, p, q], key, locale) <==> key != KeyOf(b, o)
    ensures ResultNo(b, [o, p, q], o, locale) == b.orders[o].orderNo + ['/'] + b.orders[p].orderNo
    ensures ResultNo(b, [o, p, q], q, locale) == b.orders[q].orderNo
  {
    PairMerges(b, o, p, b.orders[o].orderNo, b.orders[p].orderNo, locale);
    forall key: Key
      ensures Idle(b, [o, p, q], key, locale) <==> key != KeyOf(b, o)
    {
      GroupsOfThree(b, o, p, q, key, locale);
      OneRowSkipped(b, q, locale);
    }
    GroupsOfThree(b, o, p, q, KeyOf(b, o), locale);
  }

  /** While no group called for a merge, no order is written. */
  lemma IdleSoFar(b: Book, now: Book, listed: seq<OrderId>, keys: seq<Key>, n: nat, newIds: seq<OrderId>,
                  locale: Locale)
    requires AllIn(b, listed) && n <= |keys| <= |newIds| && PassedTo(b, now, listed, keys, n, newIds, locale)
    requires forall i | 0 <= i < n :: Idle(b, listed, keys[i], locale)
    ensures forall x | x in now.orders :: x in b.orders && now.orders[x] == b.orders[x]
  {
    assert forall x | x in now.orders :: x in b.orders;
    forall x | x in now.orders
      ensures now.orders[x] == b.orders[x]
    {
      if x in listed && KeyOf(b, x) in keys[..n] {
        var i :| 0 <= i < n && keys[i] == KeyOf(b, x);
        assert KeyDone(b, now, listed, keys[i], newIds[i], locale);
      } else {
        assert OrderKept(b, now, x);
      }
    }
  }

  lemma FreePairNotRefused(b: Book, o: OrderId, p: OrderId, s: string, t: string, newId: OrderId, invoice: InvoiceId,
                           locale: Locale)
    requires o in b.orders && p in b.orders && b.orders[o].orderNo == s && b.orders[p].orderNo == t
    requires Single(s, locale) && Single(t, locale) && s != t && locale.before(s, t)
    requires Untouched(b, [o, p]) && forall x | x in b.orders :: b.orders[x].orderNo != s + ['/'] + t
    ensures !Refused(b, [o, p], invoice, newId, locale)
  {
    PairMerges(b, o, p, s, t, locale);
  }

  lemma OtherKeysIdle(b: Book, o: OrderId, p: OrderId, q: OrderId, keys: seq<Key>, n: nat, locale: Locale)
    requires PairAndThird(b, o, p, q, locale) && KeysOf(b, [o, p, q], keys) && n < |keys| && keys[n] == KeyOf(b, o)
    ensures AllIn(b, [o, p, q]) && forall i | 0 <= i < n :: Idle(b, [o, p, q], keys[i], locale)
  {
    PairIsMerged(b, o, p, q, locale);
  }

  lemma PairTurn(b: Book, now: Book, o: OrderId, p: OrderId, q: OrderId, newId: OrderId, invoice: InvoiceId,
                 locale: Locale)
    requires PairAndThird(b, o, p, q, locale) && Untouched(b, [o, p]) && now.transfers == b.transfers
    requires forall x | x in b.orders :: b.orders[x].orderNo != b.orders[o].orderNo + ['/'] + b.orders[p].orderNo
    requires forall x | x in now.orders :: x in b.orders && now.orders[x] == b.orders[x]
    requires o in now.orders && p in now.orders
    ensures !Refused(now, [o, p], invoice, newId, locale)
  {
    FreePairNotRefused(now, o, p, b.orders[o].orderNo, b.orders[p].orderNo, newId, invoice, locale);
  }

  ghost predicate GoesThrough(now: Book, rows: seq<OrderId>, invoice: InvoiceId, newId: OrderId, locale: Locale) {
    AllIn(now, rows) && (Skipped(now, rows, locale) || !Refused(now, rows, invoice, newId, locale))
  }

  lemma IdleGoesThrough(b: Book, now: Book, listed: seq<OrderId>, keys: seq<Key>, n: nat, newIds: seq<OrderId>,
                        locale: Locale)
    requires AllIn(b, listed) && KeysOf(b, listed, keys) && n < |keys| <= |newIds|
    requires PassedTo(b, now, listed, keys, n, newIds, locale) && Idle(b, listed, keys[n], locale)
    ensures GoesThrough(now, RowsWith(b, listed, keys[n]), keys[n].0, newIds[n], locale)
  {
    NextIsWaiting(b, now, listed, keys, n, newIds, locale);
  }

  lemma PairKeyGoesThrough(b: Book, now: Book, o: OrderId, p: OrderId, q: OrderId, keys: seq<Key>, n: nat,
                           newIds: seq<OrderId>, locale: Locale)
    requires PairAndThird(b, o, p, q, locale) && KeysOf(b, [o, p, q], keys) && n < |keys| <= |newIds|
    requires PassedTo(b, now, [o, p, q], keys, n, newIds, locale) && now.transfers == b.transfers
    requires keys[n] == KeyOf(b, o) && Untouched(b, [o, p])
    requires forall x | x in b.orders :: b.orders[x].orderNo != b.orders[o].orderNo + ['/'] + b.orders[p].orderNo
    ensures GoesThrough(now, RowsWith(b, [o, p, q], keys[n]), keys[n].0, newIds[n], locale)
  {
    GroupsOfThree(b, o, p, q, keys[n], locale);
    OtherKeysIdle(b, o, p, q, keys, n, locale);
    IdleSoFar(b, now, [o, p, q], keys, n, newIds, locale);
    NextIsWaiting(b, now, [o, p, q], keys, n, newIds, locale);
    assert o in [o, p] && p in [o, p];
    PairTurn(b, now, o, p, q, newIds[n], keys[n].0, locale);
  }

  /** The first pass goes through: when the number is free and no transfer touches
      the pair, no group is refused in its turn. */
  lemma PairIsNotRefused(b: Book, now: Book, o: OrderId, p: OrderId, q: OrderId, keys: seq<Key>, n: nat,
                         newIds: seq<OrderId>, locale: Locale)
    requires PairAndThird(b, o, p, q, locale) && KeysOf(b, [o, p, q], keys) && n < |keys| <= |newIds|
    requires PassedTo(b, now, [o, p, q], keys, n, newIds, locale) && now.transfers == b.transfers
    requires Untouched(b, [o, p])
    requires forall x | x in b.orders :: b.orders[x].orderNo != b.orders[o].orderNo + ['/'] + b.orders[p].orderNo
    ensures GoesThrough(now, RowsWith(b, [o, p, q], keys[n]), keys[n].0, newIds[n], locale)
  {
    if keys[n] == KeyOf(b, o) {
      PairKeyGoesThrough(b, now, o, p, q, keys, n, newIds, locale);
    } else {
      PairIsMerged(b, o, p, q, locale);
      IdleGoesThrough(b, now, [o, p, q], keys, n, newIds, locale);
    }
  }

  lemma PairMeetsThird(b: Book, o: OrderId, p: OrderId, q: OrderId, locale: Locale)
    requires PairAndThird(b, o, p, q, locale)
    ensures AllIn(b, [o, p, q]) && !Settled(b, [o, p, q], locale)
  {
    var s, t := b.orders[o].orderNo, b.orders[p].orderNo;
    PairIsMerged(b, o, p, q, locale);
    PairNumber(s, t, locale);
    SingleNumber(b.orders[q].orderNo, locale);
    assert Meet(b, [o, p, q], o, q, locale);
    var numbers := ResultNumbers(b, [o, p, q], ResultKey(b, [o, p, q], o, locale), locale);
    assert s + ['/'] + t in numbers;
    assert s in NumberParts(s + ['/'] + t, locale) && t in NumberParts(s + ['/'] + t, locale);
  }

  /** After a pass over such orders another pass always has something to merge. */
  lemma SecondPassMergesAgain(b: Book, after: Book, o: OrderId, p: OrderId, q: OrderId, keys: seq<Key>,
                              newIds: seq<OrderId>, relisted: seq<OrderId>, locale: Locale)
    requires PairAndThird(b, o, p, q, locale)
    requires Passed(b, after, [o, p, q], keys, newIds, locale) && Relisted(b, after, [o, p, q], relisted)
    ensures !NothingToMerge(after, relisted, locale)
  {
    PairMeetsThird(b, o, p, q, locale);
    SecondPassIdleExactly(b, after, [o, p, q], keys, newIds, relisted, locale);
  }

  // ---------- three such orders ----------

  lemma KeysOfThree()
    ensures GroupKey("a-1") == "a" && GroupKey("a-2") == "a"
    ensures GroupKey("a-1/a-2") == "a-1-a" && GroupKey("a-1-a-9") == "a-1-a"
  {
    var a, one, two, nine := "a", "1", "2", "9";
    assert LowerWord(a) && LowerWord(one) && LowerWord(two) && LowerWord(nine);
    MergedNumberChangesGroup(a, one, two);
    GroupKeyOfFour(a, one, a, nine, '-');
    Spelled();
  }

  lemma Spelled()
    ensures "a" + ("-" + "1") == "a-1" && "a" + ("-" + "2") == "a-2"
    ensures "a" + ("-" + ("1" + ("/" + ("a" + ("-" + "2"))))) == "a-1/a-2"
    ensures "a" + ("-" + ("1" + (['-'] + ("a" + ("-" + "9"))))) == "a-1-a-9"
    ensures "a" + "-" + ("1" + "-" + "a") == "a-1-a"
  {
  }

  /** Orders a-1 and a-2 become a-1/a-2, whose group a-1-a is that of a-1-a-9. */
  const THREE_ORDERS := Book(
    map[0 := "INV"],
    map[1 := Order(0, "a-1", 100, 100, false), 2 := Order(0, "a-2", 200, 200, false),
        3 := Order(0, "a-1-a-9", 300, 300, false)],
    map[], map[], map[])

  /** A locale that leaves lower-case numbers as they are, and puts a-1 before a-2. */
  ghost predicate Plain(locale: Locale) {
    && locale.lower("a-1") == "a-1" && locale.lower("a-2") == "a-2" && locale.lower("a-1-a-9") == "a-1-a-9"
    && locale.lower("a-1/a-2") == "a-1/a-2" && locale.before("a-1", "a-2")
  }

  lemma PlainNumbers(locale: Locale)
    requires Plain(locale)
    ensures Single("a-1", locale) && Single("a-2", locale) && Single("a-1-a-9", locale)
    ensures "a-1" + ['/'] + "a-2" == "a-1/a-2" && Normalize("a-1/a-2", locale) == "a-1/a-2"
  {
    assert Trim("a-1/a-2") == "a-1/a-2";
  }

  lemma ThreeOrdersMeet(locale: Locale)
    requires Plain(locale)
    ensures PairAndThird(THREE_ORDERS, 1, 2, 3, locale)
  {
    KeysOfThree();
    PlainNumbers(locale);
    assert THREE_ORDERS.orders[1].orderNo == "a-1" && THREE_ORDERS.orders[2].orderNo == "a-2";
    assert THREE_ORDERS.orders[3].orderNo == "a-1-a-9";
  }
}
