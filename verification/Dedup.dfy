/** First-occurrence deduplication: of plain values, and of items by their rendered text. */
module Dedup {

  /** `xs` without later repetitions. */
  function Distinct<T(==)>(xs: seq<T>): seq<T> {
    if xs == [] then []
    else
      var init, last := Distinct(xs[..|xs| - 1]), xs[|xs| - 1];
      if last in init then init else init + [last]
  }

  lemma DistinctOneMore<T>(xs: seq<T>, x: T)
    ensures Distinct(xs + [x]) == if x in Distinct(xs) then Distinct(xs) else Distinct(xs) + [x]
  {
    assert (xs + [x])[..|xs|] == xs;
  }

  ghost predicate NoRepeats<T>(xs: seq<T>) {
    forall i, j | 0 <= i < j < |xs| :: xs[i] != xs[j]
  }

  /** Deduplication keeps exactly the elements, each once. */
  lemma {:induction false} DistinctSound<T>(xs: seq<T>)
    ensures NoRepeats(Distinct(xs))
    ensures forall x :: x in Distinct(xs) <==> x in xs
    ensures |Distinct(xs)| <= |xs|
  {
    if xs != [] {
      var init := xs[..|xs| - 1];
      DistinctSound(init);
      assert xs == init + [xs[|xs| - 1]];
    }
  }

  /** Extending the input only ever extends the result. */
  lemma {:induction false} DistinctPrefix<T>(xs: seq<T>, ys: seq<T>)
    ensures Distinct(xs) <= Distinct(xs + ys)
  {
    if ys == [] {
      assert xs + ys == xs;
    } else {
      var init := ys[..|ys| - 1];
      DistinctPrefix(xs, init);
      assert (xs + ys)[..|xs + ys| - 1] == xs + init;
    }
  }

  /** A list without repetitions is its own deduplication. */
  lemma {:induction false} DistinctFixed<T>(xs: seq<T>)
    requires NoRepeats(xs)
    ensures Distinct(xs) == xs
  {
    if xs != [] {
      var init := xs[..|xs| - 1];
      DistinctFixed(init);
      assert xs == init + [xs[|xs| - 1]];
    }
  }

  // ---- deduplication by rendered text ----

  function Texts<T(==)>(text: T -> string, xs: seq<T>): set<string> {
    set x | x in xs :: text(x)
  }

  /** `xs` without the items whose text an earlier item already has. */
  function DistinctTexts<T(==)>(text: T -> string, xs: seq<T>): seq<T> {
    if xs == [] then []
    else
      var init, last := DistinctTexts(text, xs[..|xs| - 1]), xs[|xs| - 1];
      if text(last) in Texts(text, init) then init else init + [last]
  }

  lemma TextsOneMore<T>(text: T -> string, xs: seq<T>, x: T)
    ensures Texts(text, xs + [x]) == Texts(text, xs) + {text(x)}
  {
    assert forall y :: y in xs + [x] <==> y in xs || y == x;
  }

  /** `x` is the first item of `xs` with its text. */
  ghost predicate IsFirst<T>(text: T -> string, xs: seq<T>, x: T) {
    exists k :: 0 <= k < |xs| && xs[k] == x && forall m | 0 <= m < k :: text(xs[m]) != text(x)
  }

  lemma StillFirst<T>(text: T -> string, xs: seq<T>, more: seq<T>, x: T)
    requires xs <= more && IsFirst(text, xs, x)
    ensures IsFirst(text, more, x)
  {
    var k :| 0 <= k < |xs| && xs[k] == x && forall m | 0 <= m < k :: text(xs[m]) != text(x);
    assert forall m | 0 <= m <= k :: more[m] == xs[m];
  }

  lemma NewIsFirst<T>(text: T -> string, xs: seq<T>, x: T)
    requires text(x) !in Texts(text, xs)
    ensures IsFirst(text, xs + [x], x)
  {
    var more := xs + [x];
    forall m | 0 <= m < |xs| ensures text(more[m]) != text(x) {
      assert more[m] == xs[m] && xs[m] in xs;
    }
    assert more[|xs|] == x;
  }

  /** What deduplication by text promises. */
  ghost predicate KeepsFirsts<T>(text: T -> string, xs: seq<T>, ys: seq<T>) {
    && Texts(text, ys) == Texts(text, xs)
    && (forall i, j | 0 <= i < j < |ys| :: text(ys[i]) != text(ys[j]))
    && (forall i | 0 <= i < |ys| :: IsFirst(text, xs, ys[i]))
  }

  lemma KnownText<T>(text: T -> string, xs: seq<T>, ys: seq<T>, x: T)
    requires KeepsFirsts(text, xs, ys) && text(x) in Texts(text, ys)
    ensures KeepsFirsts(text, xs + [x], ys)
  {
    TextsOneMore(text, xs, x);
    forall i | 0 <= i < |ys| ensures IsFirst(text, xs + [x], ys[i]) {
      StillFirst(text, xs, xs + [x], ys[i]);
    }
  }

  lemma NewText<T>(text: T -> string, xs: seq<T>, ys: seq<T>, x: T)
    requires KeepsFirsts(text, xs, ys) && text(x) !in Texts(text, ys)
    ensures KeepsFirsts(text, xs + [x], ys + [x])
  {
    TextsOneMore(text, xs, x);
    TextsOneMore(text, ys, x);
    NewIsFirst(text, xs, x);
    forall i | 0 <= i < |ys| ensures IsFirst(text, xs + [x], ys[i]) && text(ys[i]) in Texts(text, ys) {
      StillFirst(text, xs, xs + [x], ys[i]);
      assert ys[i] in ys;
    }
  }

  /** Every text of the input is kept exactly once, carried by its first item. */
  lemma {:induction false} DistinctTextsMeaning<T>(text: T -> string, xs: seq<T>)
    ensures KeepsFirsts(text, xs, DistinctTexts(text, xs))
  {
    if xs != [] {
      var init, x := xs[..|xs| - 1], xs[|xs| - 1];
      assert xs == init + [x];
      DistinctTextsMeaning(text, init);
      if text(x) in Texts(text, DistinctTexts(text, init)) {
        KnownText(text, init, DistinctTexts(text, init), x);
      } else {
        NewText(text, init, DistinctTexts(text, init), x);
      }
    }
  }

  /** The loop with its set of texts seen. */
  method DedupSafe<T(==)>(text: T -> string, items: seq<T>) returns (result: seq<T>)
    ensures result == DistinctTexts(text, items)
  {
    var seen: set<string> := {};
    result := [];
    for i := 0 to |items|
      invariant result == DistinctTexts(text, items[..i])
      invariant seen == Texts(text, result)
    {
      assert items[..i + 1][..i] == items[..i];
      if text(items[i]) !in seen {
        TextsOneMore(text, result, items[i]);
        seen := seen + {text(items[i])};
        result := result + [items[i]];
      }
    }
    assert items[..|items|] == items;
  }
}
