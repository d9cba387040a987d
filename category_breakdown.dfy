/** The statistics view (components/StatisticsView.tsx), second part:
    `getCategorySummary`, the breakdown of one month's income or expense by
    category. An accumulator object collects one sum per category; its
    entries are sorted largest first (a stable sort) and each gets its
    rounded share of the type's monthly total. */
module CategoryBreakdown {
  import opened Types

  // ---------------------------------------------------------------------
  // Filtering by type

  /** `.filter(t => t.type === k)` */
  function OfKind(txs: seq<Transaction>, k: TxType): (r: seq<Transaction>)
    ensures |r| <= |txs|
    ensures forall t :: t in r <==> t in txs && t.kind == k
  {
    if txs == [] then []
    else (if txs[0].kind == k then [txs[0]] else []) + OfKind(txs[1..], k)
  }

  lemma {:induction false} SumAllOfKind(txs: seq<Transaction>, k: TxType)
    ensures SumAll(OfKind(txs, k)) == SumOfKind(txs, k)
  {
    if txs != [] {
      SumAllOfKind(txs[1..], k);
      var rest := OfKind(txs[1..], k);
      if txs[0].kind == k {
        assert ([txs[0]] + rest)[1..] == rest;
      } else {
        assert [] + rest == rest;
      }
    }
  }

  // ---------------------------------------------------------------------
  // The accumulator object

  predicate Distinct<T(==)>(s: seq<T>)
  {
    forall i, j :: 0 <= i < j < |s| ==> s[i] != s[j]
  }

  predicate HasCategory(txs: seq<Transaction>, c: string)
  {
    exists i :: 0 <= i < |txs| && txs[i].category == c
  }

  /** The keys of the accumulator object in insertion order, the order
      `Object.entries` lists them in: each category at its first occurrence. */
  function FirstOccurrences(txs: seq<Transaction>): seq<string>
  {
    if txs == [] then []
    else
      var order := FirstOccurrences(txs[..|txs| - 1]);
      var c := txs[|txs| - 1].category;
      if c in order then order else order + [c]
  }

  /** The accumulator object after `acc[c] = (acc[c] || 0) + amount` for
      each transaction in turn; its keys are those of the key order. */
  function CategoryTotals(txs: seq<Transaction>): (acc: map<string, int>)
    ensures forall c :: c in acc <==> c in FirstOccurrences(txs)
  {
    if txs == [] then map[]
    else AddAmount(CategoryTotals(txs[..|txs| - 1]), txs[|txs| - 1])
  }

  /** `acc[curr.category] = (acc[curr.category] || 0) + curr.amount` */
  function AddAmount(acc: map<string, int>, t: Transaction): (r: map<string, int>)
    ensures r.Keys == acc.Keys + {t.category}
    ensures r[t.category] == (if t.category in acc then acc[t.category] else 0) + t.amount
    ensures forall c :: c in acc && c != t.category ==> r[c] == acc[c]
  {
    acc[t.category := (if t.category in acc then acc[t.category] else 0) + t.amount]
  }

  /** Sum of the amounts of the transactions of category `c`. */
  function SumOfCategory(txs: seq<Transaction>, c: string): int
  {
    if txs == [] then 0
    else SumOfCategory(txs[..|txs| - 1], c)
         + (if txs[|txs| - 1].category == c then txs[|txs| - 1].amount else 0)
  }

  lemma HasCategorySnoc(txs: seq<Transaction>, c: string)
    requires txs != []
    ensures HasCategory(txs, c) <==> HasCategory(txs[..|txs| - 1], c) || txs[|txs| - 1].category == c
  {
    var init := txs[..|txs| - 1];
    if HasCategory(txs, c) {
      var i :| 0 <= i < |txs| && txs[i].category == c;
      if i < |txs| - 1 {
        assert init[i] == txs[i];
      }
    }
    if HasCategory(init, c) {
      var i :| 0 <= i < |init| && init[i].category == c;
      assert txs[i] == init[i];
    }
  }

  lemma {:induction false} SumOfCategoryAbsent(txs: seq<Transaction>, c: string)
    requires !HasCategory(txs, c)
    ensures SumOfCategory(txs, c) == 0
  {
    if txs != [] {
      HasCategorySnoc(txs, c);
      SumOfCategoryAbsent(txs[..|txs| - 1], c);
    }
  }

  /** The key order lists every category once, and exactly the categories
      present. */
  lemma {:induction false} KeyOrderFacts(txs: seq<Transaction>)
    ensures Distinct(FirstOccurrences(txs))
    ensures forall c :: c in FirstOccurrences(txs) <==> HasCategory(txs, c)
  {
    if txs != [] {
      var init := txs[..|txs| - 1];
      KeyOrderFacts(init);
      forall c ensures HasCategory(txs, c) <==> HasCategory(init, c) || txs[|txs| - 1].category == c {
        HasCategorySnoc(txs, c);
      }
    }
  }

  /** Each key of the accumulator holds the sum of its category. */
  lemma {:induction false} AccumulatorSums(txs: seq<Transaction>)
    ensures forall c :: c in CategoryTotals(txs) ==> CategoryTotals(txs)[c] == SumOfCategory(txs, c)
  {
    if txs != [] {
      var init := txs[..|txs| - 1];
      AccumulatorSums(init);
      KeyOrderFacts(init);
      forall c | !HasCategory(init, c) ensures SumOfCategory(init, c) == 0 {
        SumOfCategoryAbsent(init, c);
      }
    }
  }

  /** `acc[curr.category] = (acc[curr.category] || 0) + curr.amount` for
      each transaction in turn (the `reduce` of lines 41-44): the object is
      the map `acc` together with its key order `order`. */
  method AccumulateByCategory(txs: seq<Transaction>) returns (order: seq<string>, acc: map<string, int>)
    ensures order == FirstOccurrences(txs) && acc == CategoryTotals(txs)
    ensures Distinct(order)
    ensures forall c :: c in acc ==> acc[c] == SumOfCategory(txs, c)
  {
    order, acc := [], map[];
    var i := 0;
    while i < |txs|
      invariant 0 <= i <= |txs|
      invariant order == FirstOccurrences(txs[..i]) && acc == CategoryTotals(txs[..i])
    {
      var t := txs[i];
      AccumulateStep(txs, i);
      if t.category !in order {
        order := order + [t.category];
      }
      acc := AddAmount(acc, t);
      i := i + 1;
    }
    assert txs[..i] == txs;
    KeyOrderFacts(txs);
    AccumulatorSums(txs);
  }

  /** One step of the `reduce`: the key order and the accumulator of the
      first `i + 1` transactions, from those of the first `i`. */
  lemma AccumulateStep(txs: seq<Transaction>, i: int)
    requires 0 <= i < |txs|
    ensures FirstOccurrences(txs[..i + 1]) ==
              var order := FirstOccurrences(txs[..i]);
              if txs[i].category in order then order else order + [txs[i].category]
    ensures CategoryTotals(txs[..i + 1]) == AddAmount(CategoryTotals(txs[..i]), txs[i])
  {
    var next := txs[..i + 1];
    assert next[..|next| - 1] == txs[..i];
    assert next[|next| - 1] == txs[i];
  }

  // ---------------------------------------------------------------------
  // Entries

  /** One `[name, amount]` pair of `Object.entries(summary)`. */
  datatype CategoryTotal = CategoryTotal(name: string, amount: int)

  /** `Object.entries`: the pairs in key order. */
  function Entries(order: seq<string>, acc: map<string, int>): (es: seq<CategoryTotal>)
    requires forall c :: c in order ==> c in acc
    ensures |es| == |order|
    ensures forall i :: 0 <= i < |es| ==> es[i] == CategoryTotal(order[i], acc[order[i]])
  {
    seq(|order|, i requires 0 <= i < |order| => CategoryTotal(order[i], acc[order[i]]))
  }

  function AmountsSum(es: seq<CategoryTotal>): int
  {
    if es == [] then 0 else es[0].amount + AmountsSum(es[1..])
  }

  lemma {:induction false} AmountsSumAppend(a: seq<CategoryTotal>, b: seq<CategoryTotal>)
    ensures AmountsSum(a + b) == AmountsSum(a) + AmountsSum(b)
  {
    if a == [] {
      assert a + b == b;
    } else {
      assert (a + b)[1..] == a[1..] + b;
      AmountsSumAppend(a[1..], b);
    }
  }

  lemma {:induction false} AmountsSumUpdate(es: seq<CategoryTotal>, j: nat, e: CategoryTotal)
    requires j < |es|
    ensures AmountsSum(es[j := e]) == AmountsSum(es) - es[j].amount + e.amount
  {
    if j > 0 {
      assert es[j := e][1..] == es[1..][j - 1 := e];
      AmountsSumUpdate(es[1..], j - 1, e);
    }
  }

  /** One step of the accumulator on a category already present: the
      entry of that category grows by the amount, so the entries' sum does. */
  lemma EntriesStepPresent(order: seq<string>, acc: map<string, int>, acc': map<string, int>, j: nat, a: int)
    requires Distinct(order) && j < |order|
    requires forall d :: d in order ==> d in acc
    requires forall d :: d in order ==> d in acc' && acc'[d] == (if d == order[j] then acc[d] + a else acc[d])
    ensures AmountsSum(Entries(order, acc')) == AmountsSum(Entries(order, acc)) + a
  {
    var es := Entries(order, acc);
    var e := CategoryTotal(order[j], acc[order[j]] + a);
    assert Entries(order, acc') == es[j := e];
    AmountsSumUpdate(es, j, e);
  }

  /** One step of the accumulator on a new category appends an entry
      holding the amount. */
  lemma EntriesStepNew(order: seq<string>, acc: map<string, int>, acc': map<string, int>, c: string, a: int)
    requires c !in order
    requires forall d :: d in order ==> d in acc
    requires c in acc' && acc'[c] == a
    requires forall d :: d in order ==> d in acc' && acc'[d] == acc[d]
    ensures AmountsSum(Entries(order + [c], acc')) == AmountsSum(Entries(order, acc)) + a
  {
    assert Entries(order + [c], acc') == Entries(order, acc) + [CategoryTotal(c, a)];
    AmountsSumAppend(Entries(order, acc), [CategoryTotal(c, a)]);
    assert AmountsSum([CategoryTotal(c, a)]) == a;
  }

  /** One step of the accumulator: whether the category is new or not, the
      entries' sum grows by the transaction's amount. */
  lemma EntriesStep(order: seq<string>, acc: map<string, int>, t: Transaction)
    requires Distinct(order)
    requires forall d :: d in acc <==> d in order
    ensures AmountsSum(Entries(if t.category in order then order else order + [t.category], AddAmount(acc, t)))
            == AmountsSum(Entries(order, acc)) + t.amount
  {
    var acc', c := AddAmount(acc, t), t.category;
    if c in order {
      var j :| 0 <= j < |order| && order[j] == c;
      EntriesStepPresent(order, acc, acc', j, t.amount);
    } else {
      EntriesStepNew(order, acc, acc', c, t.amount);
    }
  }

  lemma SumAllSnoc(txs: seq<Transaction>)
    requires txs != []
    ensures SumAll(txs) == SumAll(txs[..|txs| - 1]) + txs[|txs| - 1].amount
  {
    var init, t := txs[..|txs| - 1], txs[|txs| - 1];
    assert txs == init + [t];
    SumAllAppend(init, [t]);
    assert SumAll([t]) == t.amount;
  }

  /** The entries of the accumulator sum to the sum of all amounts. */
  lemma {:induction false} EntriesSum(txs: seq<Transaction>)
    ensures AmountsSum(Entries(FirstOccurrences(txs), CategoryTotals(txs))) == SumAll(txs)
  {
    if txs != [] {
      var init := txs[..|txs| - 1];
      KeyOrderFacts(init);
      EntriesSum(init);
      SumAllSnoc(txs);
      EntriesStep(FirstOccurrences(init), CategoryTotals(init), txs[|txs| - 1]);
    }
  }

  // ---------------------------------------------------------------------
  // Stable sort, largest amount first

  predicate DistinctNames(es: seq<CategoryTotal>)
  {
    forall i, j :: 0 <= i < j < |es| ==> es[i].name != es[j].name
  }

  predicate SortedDesc(es: seq<CategoryTotal>)
  {
    forall i, j :: 0 <= i < j < |es| ==> es[i].amount >= es[j].amount
  }

  /** Puts `x` after every entry whose amount is at least its own. */
  function InsertDesc(x: CategoryTotal, s: seq<CategoryTotal>): seq<CategoryTotal>
  {
    if s == [] then [x]
    else if s[0].amount < x.amount then [x] + s
    else [s[0]] + InsertDesc(x, s[1..])
  }

  /** `.sort((a, b) => b[1] - a[1])`, which is stable: an insertion sort
      that keeps entries of equal amount in their original order. */
  function SortDesc(s: seq<CategoryTotal>): seq<CategoryTotal>
  {
    if s == [] then [] else InsertDesc(s[|s| - 1], SortDesc(s[..|s| - 1]))
  }

  /** The entries of amount `v`, in order. */
  function WithAmount(s: seq<CategoryTotal>, v: int): seq<CategoryTotal>
  {
    if s == [] then []
    else (if s[0].amount == v then [s[0]] else []) + WithAmount(s[1..], v)
  }

  lemma {:induction false} WithAmountAppend(a: seq<CategoryTotal>, b: seq<CategoryTotal>, v: int)
    ensures WithAmount(a + b, v) == WithAmount(a, v) + WithAmount(b, v)
  {
    if a == [] {
      assert a + b == b;
    } else {
      assert (a + b)[1..] == a[1..] + b;
      WithAmountAppend(a[1..], b, v);
      var h := if a[0].amount == v then [a[0]] else [];
      assert WithAmount(a + b, v) == h + (WithAmount(a[1..], v) + WithAmount(b, v));
      assert h + (WithAmount(a[1..], v) + WithAmount(b, v)) == (h + WithAmount(a[1..], v)) + WithAmount(b, v);
    }
  }

  /** No entry of a list sorted largest first, whose head is below `v`, has amount `v`. */
  lemma {:induction false} WithAmountNone(s: seq<CategoryTotal>, v: int)
    requires SortedDesc(s) && (s != [] ==> s[0].amount < v)
    ensures WithAmount(s, v) == []
  {
    if s != [] {
      if |s| > 1 {
        assert s[1].amount <= s[0].amount;
      }
      WithAmountNone(s[1..], v);
    }
  }

  lemma {:induction false} InsertDescPermutes(x: CategoryTotal, s: seq<CategoryTotal>)
    ensures multiset(InsertDesc(x, s)) == multiset(s) + multiset{x}
    ensures AmountsSum(InsertDesc(x, s)) == AmountsSum(s) + x.amount
  {
    if s != [] && s[0].amount >= x.amount {
      InsertDescPermutes(x, s[1..]);
      assert s == [s[0]] + s[1..];
    }
  }

  /** An upper bound of the list and of `x` bounds the result. */
  lemma {:induction false} InsertDescBound(x: CategoryTotal, s: seq<CategoryTotal>, b: int)
    requires x.amount <= b && forall i :: 0 <= i < |s| ==> s[i].amount <= b
    ensures forall i :: 0 <= i < |InsertDesc(x, s)| ==> InsertDesc(x, s)[i].amount <= b
  {
    if s != [] && s[0].amount >= x.amount {
      InsertDescBound(x, s[1..], b);
    }
  }

  lemma {:induction false} InsertDescSorted(x: CategoryTotal, s: seq<CategoryTotal>)
    requires SortedDesc(s)
    ensures SortedDesc(InsertDesc(x, s))
  {
    if s != [] && s[0].amount >= x.amount {
      var tail := InsertDesc(x, s[1..]);
      InsertDescSorted(x, s[1..]);
      InsertDescBound(x, s[1..], s[0].amount);
      SortedCons(s[0], tail);
    }
  }

  lemma SortedCons(e: CategoryTotal, s: seq<CategoryTotal>)
    requires SortedDesc(s) && forall i :: 0 <= i < |s| ==> s[i].amount <= e.amount
    ensures SortedDesc([e] + s)
  {
    var r := [e] + s;
    forall i, j | 0 <= i < j < |r| ensures r[i].amount >= r[j].amount {
      if i > 0 {
        assert r[i] == s[i - 1] && r[j] == s[j - 1];
      }
    }
  }

  lemma {:induction false} InsertDescStable(x: CategoryTotal, s: seq<CategoryTotal>, v: int)
    requires SortedDesc(s)
    ensures WithAmount(InsertDesc(x, s), v) == WithAmount(s, v) + WithAmount([x], v)
  {
    var wx := WithAmount([x], v);
    assert [x][1..] == [];
    assert WithAmount([x][1..], v) == [];
    var hx := if x.amount == v then [x] else [];
    assert wx == hx + [] == hx;
    var r := InsertDesc(x, s);
    if s == [] {
      assert WithAmount(s, v) + wx == wx;
    } else if s[0].amount < x.amount {
      assert r == [x] + s && r[1..] == s;
      if x.amount == v {
        WithAmountNone(s, v);
        assert WithAmount(r, v) == [x] + WithAmount(s, v);
      } else {
        assert WithAmount(r, v) == [] + WithAmount(s, v);
      }
    } else {
      SortedTail(s);
      InsertDescStable(x, s[1..], v);
      var h := if s[0].amount == v then [s[0]] else [];
      assert r[0] == s[0] && r[1..] == InsertDesc(x, s[1..]);
      assert WithAmount(r, v) == h + (WithAmount(s[1..], v) + wx);
      assert WithAmount(s, v) == h + WithAmount(s[1..], v);
      assert h + (WithAmount(s[1..], v) + wx) == (h + WithAmount(s[1..], v)) + wx;
    }
  }

  lemma SortedTail(s: seq<CategoryTotal>)
    requires SortedDesc(s) && s != []
    ensures SortedDesc(s[1..])
  {
  }

  /** A name that neither the list nor `x` carries is absent from the result. */
  lemma {:induction false} InsertDescNameAbsent(x: CategoryTotal, s: seq<CategoryTotal>, n: string)
    requires x.name != n && forall i :: 0 <= i < |s| ==> s[i].name != n
    ensures forall i :: 0 <= i < |InsertDesc(x, s)| ==> InsertDesc(x, s)[i].name != n
  {
    if s != [] && s[0].amount >= x.amount {
      InsertDescNameAbsent(x, s[1..], n);
    }
  }

  lemma {:induction false} InsertDescDistinct(x: CategoryTotal, s: seq<CategoryTotal>)
    requires DistinctNames(s) && forall i :: 0 <= i < |s| ==> s[i].name != x.name
    ensures DistinctNames(InsertDesc(x, s))
  {
    if s == [] {
    } else if s[0].amount < x.amount {
      DistinctCons(x, s);
    } else {
      var tail := InsertDesc(x, s[1..]);
      InsertDescDistinct(x, s[1..]);
      InsertDescNameAbsent(x, s[1..], s[0].name);
      DistinctCons(s[0], tail);
    }
  }

  lemma DistinctCons(e: CategoryTotal, s: seq<CategoryTotal>)
    requires DistinctNames(s) && forall i :: 0 <= i < |s| ==> s[i].name != e.name
    ensures DistinctNames([e] + s)
  {
    var r := [e] + s;
    forall i, j | 0 <= i < j < |r| ensures r[i].name != r[j].name {
      if i > 0 {
        assert r[i] == s[i - 1] && r[j] == s[j - 1];
      }
    }
  }

  /** The sort returns a permutation of its input, sorted largest first,
      with the same sum, and it is stable: the entries of any one amount
      come out in the order they went in. */
  lemma {:induction false} SortDescFacts(s: seq<CategoryTotal>)
    ensures SortedDesc(SortDesc(s))
    ensures multiset(SortDesc(s)) == multiset(s)
    ensures AmountsSum(SortDesc(s)) == AmountsSum(s)
    ensures forall v :: WithAmount(SortDesc(s), v) == WithAmount(s, v)
  {
    if s != [] {
      var init, x := s[..|s| - 1], s[|s| - 1];
      assert s == init + [x];
      SortDescFacts(init);
      InsertDescSorted(x, SortDesc(init));
      InsertDescPermutes(x, SortDesc(init));
      AmountsSumAppend(init, [x]);
      assert AmountsSum([x]) == x.amount;
      forall v ensures WithAmount(SortDesc(s), v) == WithAmount(s, v) {
        InsertDescStable(x, SortDesc(init), v);
        WithAmountAppend(init, [x], v);
      }
    }
  }

  /** Sorting never puts two entries of one name side by side that were not
      there before: distinct names stay distinct. */
  lemma {:induction false} SortDescDistinct(s: seq<CategoryTotal>)
    requires DistinctNames(s)
    ensures DistinctNames(SortDesc(s))
  {
    if s != [] {
      var init, x := s[..|s| - 1], s[|s| - 1];
      SortDescDistinct(init);
      SortDescFacts(init);
      var sorted := SortDesc(init);
      forall i | 0 <= i < |sorted| ensures sorted[i].name != x.name {
        assert sorted[i] in multiset(init);
        var k :| 0 <= k < |init| && init[k] == sorted[i];
        assert s[k] == init[k];
      }
      InsertDescDistinct(x, sorted);
    }
  }

  // ---------------------------------------------------------------------
  // Percentages

  lemma FloorDiv(x: int, d: int)
    requires d > 0
    ensures (x / d) * d <= x < (x / d + 1) * d
  {
  }

  lemma RealScale(x: real, y: real, c: real)
    requires c > 0.0
    ensures x * c <= y * c <==> x <= y
    ensures x * c < y * c <==> x < y
  {
  }

  /** `total > 0 ? Math.round((amount / total) * 100) : 0`, taken over the
      exact quotient: rounding half up of `amount / total * 100` is
      floor((200 amount + total) / (2 total)) on integers. The view rounds
      a double, which can differ just below a half. */
  function Percentage(amount: int, total: int): (p: int)
    ensures total <= 0 ==> p == 0
    ensures total > 0 ==>
              p as real <= (amount as real / total as real) * 100.0 + 0.5 < p as real + 1.0
  {
    if total > 0 then
      var p := (200 * amount + total) / (2 * total);
      RoundedShare(amount, total, p);
      p
    else 0
  }

  lemma RoundedShare(amount: int, total: int, p: int)
    requires total > 0 && p == (200 * amount + total) / (2 * total)
    ensures p as real <= (amount as real / total as real) * 100.0 + 0.5 < p as real + 1.0
  {
    var d := 2 * total;
    var x := 200 * amount + total;
    var q := (amount as real / total as real) * 100.0 + 0.5;
    FloorDiv(x, d);
    CastProduct(p, d);
    CastProduct(p + 1, d);
    ScaledShare(amount as real, total as real);
    assert q * d as real == x as real;
    Between(p as real, q, d as real, x as real);
  }

  /** Dividing `p d <= x < (p + 1) d` by `d`, where `x = q d`. */
  lemma Between(p: real, q: real, d: real, x: real)
    requires d > 0.0 && p * d <= x < (p + 1.0) * d && q * d == x
    ensures p <= q < p + 1.0
  {
    RealScale(p, q, d);
    RealScale(q, p + 1.0, d);
  }

  lemma CastProduct(a: int, b: int)
    ensures (a * b) as real == a as real * b as real
  {
  }

  /** Doubling the total clears both the division and the half. */
  lemma ScaledShare(a: real, t: real)
    requires t > 0.0
    ensures (a / t * 100.0 + 0.5) * (2.0 * t) == 200.0 * a + t
  {
    assert a / t * t == a;
  }

  /** A share of a non-negative total lies in 0..100 percent. */
  lemma PercentageRange(amount: int, total: int)
    requires 0 <= amount <= total
    ensures 0 <= Percentage(amount, total) <= 100
  {
    if total > 0 {
      var d := 2 * total;
      var p := Percentage(amount, total);
      FloorDiv(200 * amount + total, d);
      assert p * d < 101 * d;
      MulCancel(p, 101, d);
    }
  }

  lemma MulCancel(a: int, b: int, c: int)
    requires c > 0 && a * c < b * c
    ensures a < b
  {
  }

  // ---------------------------------------------------------------------
  // The breakdown

  /** One row of the breakdown: `{ name, amount, percentage }`. */
  datatype CategoryShare = CategoryShare(name: string, amount: int, percentage: int)

  /** The rows for sorted entries against the monthly total. */
  function Shares(sorted: seq<CategoryTotal>, total: int): (r: seq<CategoryShare>)
    ensures |r| == |sorted|
    ensures forall i :: 0 <= i < |r| ==>
              r[i].name == sorted[i].name && r[i].amount == sorted[i].amount
              && r[i].percentage == Percentage(sorted[i].amount, total)
  {
    seq(|sorted|, i requires 0 <= i < |sorted| =>
      CategoryShare(sorted[i].name, sorted[i].amount, Percentage(sorted[i].amount, total)))
  }

  /** What `getCategorySummary(k)` returns for the month's transactions
      `monthTxs`. */
  function Summary(monthTxs: seq<Transaction>, k: TxType): seq<CategoryShare>
  {
    var typed := OfKind(monthTxs, k);
    Shares(SortDesc(Entries(FirstOccurrences(typed), CategoryTotals(typed))), SumOfKind(monthTxs, k))
  }

  /** `getCategorySummary(k)`: the accumulation loop, then the stable sort
      and the percentages. */
  method CategorySummary(monthTxs: seq<Transaction>, k: TxType) returns (r: seq<CategoryShare>)
    ensures r == Summary(monthTxs, k)
    ensures forall i, j :: 0 <= i < j < |r| ==> r[i].amount >= r[j].amount
    ensures forall i, j :: 0 <= i < j < |r| ==> r[i].name != r[j].name
    ensures SharesSum(r) == SumOfKind(monthTxs, k)
  {
    var typed := OfKind(monthTxs, k);
    var order, acc := AccumulateByCategory(typed);
    var sorted := SortDesc(Entries(order, acc));
    r := Shares(sorted, SumOfKind(monthTxs, k));
    SummaryOrdered(monthTxs, k);
    SummarySum(monthTxs, k);
  }

  function SharesSum(r: seq<CategoryShare>): int
  {
    if r == [] then 0 else r[0].amount + SharesSum(r[1..])
  }

  lemma {:induction false} SharesSumOfRows(sorted: seq<CategoryTotal>, total: int)
    ensures SharesSum(Shares(sorted, total)) == AmountsSum(sorted)
  {
    if sorted != [] {
      SharesSumOfRows(sorted[1..], total);
      assert Shares(sorted, total)[1..] == Shares(sorted[1..], total);
    }
  }

  /** Rows come largest amount first, and no category appears twice. */
  lemma SummaryOrdered(monthTxs: seq<Transaction>, k: TxType)
    ensures var r := Summary(monthTxs, k);
            && (forall i, j :: 0 <= i < j < |r| ==> r[i].amount >= r[j].amount)
            && (forall i, j :: 0 <= i < j < |r| ==> r[i].name != r[j].name)
  {
    var typed := OfKind(monthTxs, k);
    KeyOrderFacts(typed);
    var es := Entries(FirstOccurrences(typed), CategoryTotals(typed));
    SortDescFacts(es);
    SortDescDistinct(es);
  }

  /** The row amounts add up to the type's monthly total. */
  lemma SummarySum(monthTxs: seq<Transaction>, k: TxType)
    ensures SharesSum(Summary(monthTxs, k)) == SumOfKind(monthTxs, k)
  {
    var typed := OfKind(monthTxs, k);
    var es := Entries(FirstOccurrences(typed), CategoryTotals(typed));
    SortDescFacts(es);
    SharesSumOfRows(SortDesc(es), SumOfKind(monthTxs, k));
    EntriesSum(typed);
    SumAllOfKind(monthTxs, k);
  }

  /** There is one row per category of type `k` present in the month, and
      each row's amount is the sum of that category's amounts. */
  lemma SummaryRows(monthTxs: seq<Transaction>, k: TxType)
    ensures var r := Summary(monthTxs, k);
            var typed := OfKind(monthTxs, k);
            && (forall c :: (exists i :: 0 <= i < |r| && r[i].name == c) <==> HasCategory(typed, c))
            && (forall i :: 0 <= i < |r| ==> r[i].amount == SumOfCategory(typed, r[i].name))
  {
    var typed := OfKind(monthTxs, k);
    var sorted := SortDesc(Entries(FirstOccurrences(typed), CategoryTotals(typed)));
    var r := Summary(monthTxs, k);
    assert r == Shares(sorted, SumOfKind(monthTxs, k));
    SortedRows(typed, sorted);
    forall c ensures (exists i :: 0 <= i < |r| && r[i].name == c) <==> HasCategory(typed, c) {
      if HasCategory(typed, c) {
        var i :| 0 <= i < |sorted| && sorted[i].name == c;
        assert r[i].name == c;
      }
    }
  }

  /** The sorted entries hold one entry for each category present, with
      that category's sum. */
  lemma SortedRows(typed: seq<Transaction>, sorted: seq<CategoryTotal>)
    requires sorted == SortDesc(Entries(FirstOccurrences(typed), CategoryTotals(typed)))
    ensures forall c :: (exists i :: 0 <= i < |sorted| && sorted[i].name == c) <==> HasCategory(typed, c)
    ensures forall i :: 0 <= i < |sorted| ==> sorted[i].amount == SumOfCategory(typed, sorted[i].name)
  {
    var order, acc := FirstOccurrences(typed), CategoryTotals(typed);
    KeyOrderFacts(typed);
    AccumulatorSums(typed);
    SortDescFacts(Entries(order, acc));
    RowsOfEntries(order, acc, sorted);
  }

  /** Any rearrangement of the entries holds each key once with its value. */
  lemma RowsOfEntries(order: seq<string>, acc: map<string, int>, sorted: seq<CategoryTotal>)
    requires forall c :: c in order ==> c in acc
    requires multiset(sorted) == multiset(Entries(order, acc))
    ensures forall i :: 0 <= i < |sorted| ==> sorted[i].name in order && sorted[i].amount == acc[sorted[i].name]
    ensures forall c :: c in order ==> exists i :: 0 <= i < |sorted| && sorted[i].name == c
  {
    var es := Entries(order, acc);
    forall i | 0 <= i < |sorted|
      ensures sorted[i].name in order && sorted[i].amount == acc[sorted[i].name]
    {
      assert sorted[i] in multiset(es);
    }
    forall c | c in order ensures exists i :: 0 <= i < |sorted| && sorted[i].name == c {
      var a :| 0 <= a < |order| && order[a] == c;
      assert es[a] in multiset(sorted);
    }
  }

  /** With non-negative amounts every percentage lies in 0..100; an empty
      month gives an empty breakdown. */
  lemma SummaryPercentages(monthTxs: seq<Transaction>, k: TxType)
    requires forall i :: 0 <= i < |monthTxs| ==> monthTxs[i].amount >= 0
    ensures var r := Summary(monthTxs, k);
            forall i :: 0 <= i < |r| ==> 0 <= r[i].percentage <= 100
  {
    var r := Summary(monthTxs, k);
    var typed := OfKind(monthTxs, k);
    SummaryRows(monthTxs, k);
    forall i | 0 <= i < |typed| ensures typed[i].amount >= 0 {
      assert typed[i] in monthTxs;
    }
    SumAllOfKind(monthTxs, k);
    forall i | 0 <= i < |r| ensures 0 <= r[i].percentage <= 100 {
      SumOfCategoryBounds(typed, r[i].name);
      PercentageRange(r[i].amount, SumOfKind(monthTxs, k));
    }
  }

  lemma EmptyMonthSummary(k: TxType)
    ensures Summary([], k) == []
  {
  }

  lemma {:induction false} SumOfCategoryBounds(txs: seq<Transaction>, c: string)
    requires forall i :: 0 <= i < |txs| ==> txs[i].amount >= 0
    ensures 0 <= SumOfCategory(txs, c) <= SumAll(txs)
  {
    if txs != [] {
      var init := txs[..|txs| - 1];
      SumOfCategoryBounds(init, c);
      assert txs == init + [txs[|txs| - 1]];
      SumAllAppend(init, [txs[|txs| - 1]]);
      assert SumAll([txs[|txs| - 1]]) == txs[|txs| - 1].amount;
    }
  }
}
