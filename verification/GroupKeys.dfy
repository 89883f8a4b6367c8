/**
 The groups a consolidation pass works on: the group key of an order number,
 and the listed orders grouped by invoice and key.
 */
module GroupKeys {
  import opened Basics
  import opened Ledger
  import opened LedgerMerges
  import opened OrderAlias

  // ---------- group keys ----------

  predicate IsAlnum(c: char) {
    'A' <= c <= 'Z' || 'a' <= c <= 'z' || '0' <= c <= '9'
  }

  function LowerAlnum(c: char): char {
    if 'A' <= c <= 'Z' then c - 'A' + 'a' else c
  }

  /** The lower-case alphanumeric runs of a number; `run` is the one being read. */
  function Tokens(s: string, run: string): seq<string> {
    if s == [] then (if run == [] then [] else [run])
    else if IsAlnum(s[0]) then Tokens(s[1..], run + [LowerAlnum(s[0])])
    else (if run == [] then [] else [run]) + Tokens(s[1..], [])
  }

  /** All tokens but the last, or the only one. */
  function GroupKey(orderNo: string): string {
    var tokens := Tokens(orderNo, []);
    if |tokens| <= 1 then Join(tokens, '-') else Join(tokens[..|tokens| - 1], '-')
  }

  predicate LowerWord(w: string) {
    w != [] && forall i | 0 <= i < |w| :: IsAlnum(w[i]) && LowerAlnum(w[i]) == w[i]
  }

  /** A lower-case word up to the next separator is one token. */
  lemma {:induction false} TokensOfWord(w: string, tail: string, run: string)
    requires w == [] || LowerWord(w)
    requires run + w != [] && (tail == [] || !IsAlnum(tail[0]))
    ensures Tokens(w + tail, run) == [run + w] + if tail == [] then [] else Tokens(tail[1..], [])
  {
    if w == [] {
      assert w + tail == tail && run + w == run;
    } else {
      assert (w + tail)[1..] == w[1..] + tail;
      TokensOfWord(w[1..], tail, run + [w[0]]);
      assert run + [w[0]] + w[1..] == run + w;
    }
  }

  lemma TokensOfPair(group: string, part: string, tail: string)
    requires LowerWord(group) && LowerWord(part) && (tail == [] || !IsAlnum(tail[0]))
    ensures Tokens(group + ("-" + (part + tail)), []) ==
            [group] + ([part] + if tail == [] then [] else Tokens(tail[1..], []))
  {
    var rest := "-" + (part + tail);
    assert rest[1..] == part + tail;
    TokensOfWord(group, rest, []);
    TokensOfWord(part, tail, []);
    assert [] + group == group && [] + part == part;
  }

  lemma GroupKeyOfPair(group: string, part: string)
    requires LowerWord(group) && LowerWord(part)
    ensures GroupKey(group + ("-" + part)) == group
  {
    TokensOfPair(group, part, []);
    assert part + [] == part;
    var tokens := [group] + ([part] + []);
    assert tokens[..|tokens| - 1] == [group];
  }

  lemma TokensOfTwoPairs(a: string, b: string, c: string, d: string, between: char)
    requires LowerWord(a) && LowerWord(b) && LowerWord(c) && LowerWord(d) && !IsAlnum(between)
    ensures Tokens(a + ("-" + (b + ([between] + (c + ("-" + d))))), []) == [a, b, c, d]
  {
    var tail := [between] + (c + ("-" + d));
    assert tail[1..] == c + ("-" + d);
    TokensOfPair(a, b, tail);
    TokensOfPair(c, d, []);
    assert d + [] == d;
    assert [a] + ([b] + ([c] + ([d] + []))) == [a, b, c, d];
  }

  /** The group key of a number of four words leaves out the last one. */
  lemma GroupKeyOfFour(a: string, b: string, c: string, d: string, between: char)
    requires LowerWord(a) && LowerWord(b) && LowerWord(c) && LowerWord(d) && !IsAlnum(between)
    ensures GroupKey(a + ("-" + (b + ([between] + (c + ("-" + d)))))) == a + "-" + (b + "-" + c)
  {
    TokensOfTwoPairs(a, b, c, d, between);
    assert [a, b, c, d][..3] == [a, b, c];
    JoinThree(a, b, c);
  }

  lemma JoinThree(a: string, b: string, c: string)
    ensures Join([a, b, c], '-') == a + "-" + (b + "-" + c)
  {
    assert [a, b, c][1..] == [b, c] && [b, c][1..] == [c];
    assert Join([b, c], '-') == b + "-" + c;
  }

  /** Two numbers of one group get a merged number with another group key. */
  lemma MergedNumberChangesGroup(group: string, first: string, second: string)
    requires LowerWord(group) && LowerWord(first) && LowerWord(second)
    ensures GroupKey(group + ("-" + first)) == GroupKey(group + ("-" + second)) == group
    ensures GroupKey(group + ("-" + (first + ("/" + (group + ("-" + second)))))) ==
            group + "-" + (first + "-" + group)
  {
    GroupKeyOfPair(group, first);
    GroupKeyOfPair(group, second);
    GroupKeyOfFour(group, first, group, second, '/');
  }

  /** The tokens of words joined by dashes are the words. */
  lemma {:induction false} TokensOfWords(words: seq<string>)
    requires forall i | 0 <= i < |words| :: LowerWord(words[i])
    ensures Tokens(Join(words, '-'), []) == words
  {
    if |words| == 1 {
      TokensOfWord(words[0], [], []);
      assert words[0] + [] == words[0] && [] + words[0] == words[0];
    } else if |words| > 1 {
      var tail := ['-'] + Join(words[1..], '-');
      TokensOfWords(words[1..]);
      TokensOfWord(words[0], tail, []);
      assert tail[1..] == Join(words[1..], '-') && [] + words[0] == words[0];
      assert Join(words, '-') == words[0] + tail;
    }
  }

  /** Two numbers of at least two words have one group key exactly when they differ
      in nothing but the last word. */
  lemma SameGroupExactly(u: seq<string>, v: seq<string>)
    requires |u| > 1 && |v| > 1
    requires (forall i | 0 <= i < |u| :: LowerWord(u[i])) && forall i | 0 <= i < |v| :: LowerWord(v[i])
    ensures GroupKey(Join(u, '-')) == GroupKey(Join(v, '-')) <==> u[..|u| - 1] == v[..|v| - 1]
  {
    TokensOfWords(u);
    TokensOfWords(v);
    TokensOfWords(u[..|u| - 1]);
    TokensOfWords(v[..|v| - 1]);
  }

  /** Letter case does not matter. */
  lemma {:induction false} TokensIgnoreCase(s: string, t: string, run: string)
    requires |s| == |t| && forall i | 0 <= i < |s| :: LowerAlnum(s[i]) == LowerAlnum(t[i])
    ensures Tokens(s, run) == Tokens(t, run)
  {
    if s != [] {
      assert LowerAlnum(s[0]) == LowerAlnum(t[0]);
      assert forall i | 0 <= i < |s| - 1 :: s[1..][i] == s[i + 1] && t[1..][i] == t[i + 1];
      if IsAlnum(s[0]) {
        TokensIgnoreCase(s[1..], t[1..], run + [LowerAlnum(s[0])]);
      } else {
        TokensIgnoreCase(s[1..], t[1..], []);
      }
    }
  }

  // ---------- buckets ----------

  type Key = (InvoiceId, string)

  function KeyOf(b: Book, o: OrderId): Key
    requires o in b.orders
  {
    (b.orders[o].invoiceId, GroupKey(b.orders[o].orderNo))
  }

  /** The listed orders with a key, in listing order. */
  function RowsWith(b: Book, listed: seq<OrderId>, key: Key): (r: seq<OrderId>)
    requires forall o | o in listed :: o in b.orders
    ensures forall o :: o in r <==> o in listed && KeyOf(b, o) == key
  {
    if listed == [] then []
    else (if KeyOf(b, listed[0]) == key then [listed[0]] else []) + RowsWith(b, listed[1..], key)
  }

  lemma {:induction false} RowsWithSnoc(b: Book, listed: seq<OrderId>, o: OrderId, key: Key)
    requires o in b.orders && forall p | p in listed :: p in b.orders
    ensures RowsWith(b, listed + [o], key) == RowsWith(b, listed, key) + if KeyOf(b, o) == key then [o] else []
  {
    if listed != [] {
      assert (listed + [o])[1..] == listed[1..] + [o];
      RowsWithSnoc(b, listed[1..], o, key);
    }
  }

  lemma {:induction false} RowsWithDistinct(b: Book, listed: seq<OrderId>, key: Key)
    requires Distinctly(listed) && forall o | o in listed :: o in b.orders
    ensures Distinctly(RowsWith(b, listed, key))
  {
    if listed != [] {
      RowsWithDistinct(b, listed[1..], key);
      assert listed[0] !in listed[1..];
    }
  }

  /** What grouping the first listed orders has produced. */
  ghost predicate Grouped(b: Book, done: seq<OrderId>, keys: seq<Key>, bucket: map<Key, seq<OrderId>>)
    requires forall o | o in done :: o in b.orders
  {
    && (forall i, j | 0 <= i < j < |keys| :: keys[i] != keys[j])
    && |keys| <= |done|
    && (forall k :: k in keys <==> k in bucket)
    && (forall k | k in bucket :: bucket[k] == RowsWith(b, done, k))
    && (forall o | o in done && GroupKey(b.orders[o].orderNo) != [] :: KeyOf(b, o) in bucket)
  }

  lemma RowsOfNewKey(b: Book, done: seq<OrderId>, keys: seq<Key>, bucket: map<Key, seq<OrderId>>, key: Key)
    requires forall p | p in done :: p in b.orders
    requires Grouped(b, done, keys, bucket) && key !in bucket && key.1 != []
    ensures RowsWith(b, done, key) == []
  {
    RowsWithNone(b, done, key);
  }

  lemma {:induction false} RowsWithNone(b: Book, listed: seq<OrderId>, key: Key)
    requires forall o | o in listed :: o in b.orders && KeyOf(b, o) != key
    ensures RowsWith(b, listed, key) == []
  {
    if listed != [] {
      RowsWithNone(b, listed[1..], key);
    }
  }

  lemma SkippedStep(b: Book, done: seq<OrderId>, o: OrderId, keys: seq<Key>, bucket: map<Key, seq<OrderId>>)
    requires o in b.orders && forall p | p in done :: p in b.orders
    requires Grouped(b, done, keys, bucket) && KeyOf(b, o) !in bucket && GroupKey(b.orders[o].orderNo) == []
    ensures Grouped(b, done + [o], keys, bucket)
  {
    forall k | k in bucket
      ensures bucket[k] == RowsWith(b, done + [o], k)
    {
      RowsWithSnoc(b, done, o, k);
    }
  }

  /** Adding an order to its bucket, which is empty when it is new. */
  lemma AddedStep(b: Book, done: seq<OrderId>, o: OrderId, keys: seq<Key>, bucket: map<Key, seq<OrderId>>)
    requires o in b.orders && forall p | p in done :: p in b.orders
    requires (forall i, j | 0 <= i < j < |keys| :: keys[i] != keys[j]) && |keys| <= |done| + 1
    requires forall k :: k in keys <==> k in bucket
    requires forall k | k in bucket :: bucket[k] == RowsWith(b, done, k)
    requires forall p | p in done && GroupKey(b.orders[p].orderNo) != [] :: KeyOf(b, p) in bucket
    requires KeyOf(b, o) in bucket
    ensures Grouped(b, done + [o], keys, bucket[KeyOf(b, o) := bucket[KeyOf(b, o)] + [o]])
  {
    var key := KeyOf(b, o);
    var added := bucket[key := bucket[key] + [o]];
    forall k | k in added
      ensures added[k] == RowsWith(b, done + [o], k)
    {
      RowsWithSnoc(b, done, o, k);
    }
  }

  /** Groups the listed orders by invoice and group key; orders without a key are left out. */
  method GroupOrders(b: Book, listed: seq<OrderId>) returns (keys: seq<Key>, bucket: map<Key, seq<OrderId>>)
    requires forall o | o in listed :: o in b.orders
    ensures Grouped(b, listed, keys, bucket)
    ensures forall k | k in bucket :: k.1 != []
  {
    keys, bucket := [], map[];
    var i := 0;
    while i < |listed|
      invariant i <= |listed|
      invariant Grouped(b, listed[..i], keys, bucket)
      invariant forall k | k in bucket :: k.1 != []
    {
      keys, bucket := AddListed(b, listed[..i], listed[i], keys, bucket);
      assert listed[..i + 1] == listed[..i] + [listed[i]];
      i := i + 1;
    }
    assert listed[..|listed|] == listed;
  }

  method AddListed(b: Book, ghost done: seq<OrderId>, o: OrderId, keys0: seq<Key>, bucket0: map<Key, seq<OrderId>>)
    returns (keys: seq<Key>, bucket: map<Key, seq<OrderId>>)
    requires o in b.orders && forall p | p in done :: p in b.orders
    requires Grouped(b, done, keys0, bucket0)
    requires forall k | k in bucket0 :: k.1 != []
    ensures Grouped(b, done + [o], keys, bucket)
    ensures forall k | k in bucket :: k.1 != []
  {
    keys, bucket := keys0, bucket0;
    var key := KeyOf(b, o);
    if key.1 == [] {
      SkippedStep(b, done, o, keys, bucket);
      return;
    }
    if key !in bucket {
      RowsOfNewKey(b, done, keys, bucket, key);
      keys := keys + [key];
      bucket := bucket[key := []];
    }
    AddedStep(b, done, o, keys, bucket);
    bucket := bucket[key := bucket[key] + [o]];
  }
}
