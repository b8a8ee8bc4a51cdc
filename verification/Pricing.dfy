/** The longest-prefix price lookup of internal/llm/pricing.go, over any table and any iteration order. */
module Pricing {
  import opened Bytes

  datatype Price = Price(input: real, output: real)

  const FREE := Price(0.0, 0.0)

  function Lower(s: string): (r: string)
    ensures |r| == |s|
  {
    seq(|s|, i requires 0 <= i < |s| => LowerChar(s[i]))
  }

  /** The key names the model, or a family of it: what follows the key is the end or a dash. */
  predicate Matches(model: string, key: string) {
    key <= model && (|model| == |key| || model[|key|] == '-')
  }

  predicate Candidate(table: map<string, Price>, model: string, key: string) {
    key in table && key != "" && Matches(Lower(model), Lower(key))
  }

  /** A longest matching key. */
  predicate Winner(table: map<string, Price>, model: string, key: string) {
    Candidate(table, model, key)
    && forall k :: k in table && Candidate(table, model, k) ==> |k| <= |key|
  }

  /** The price of a longest matching key, or nothing to pay when no key matches. */
  ghost predicate IsLookup(table: map<string, Price>, model: string, price: Price) {
    (exists key :: key in table && Winner(table, model, key) && table[key] == price)
    || ((forall key :: key in table ==> !Candidate(table, model, key)) && price == FREE)
  }

  method LookupPricing(table: map<string, Price>, model: string) returns (best: Price)
    ensures IsLookup(table, model, best)
  {
    var m := Lower(model);
    best := FREE;
    var bestKeyLen := 0;
    ghost var bestKey := "";
    var left := table.Keys;
    while left != {}
      invariant left <= table.Keys
      invariant bestKeyLen == |bestKey|
      invariant bestKeyLen > 0 ==> Candidate(table, model, bestKey) && best == table[bestKey]
      invariant bestKeyLen == 0 ==> best == FREE
      invariant forall k :: k in table && k !in left && Candidate(table, model, k) ==> |k| <= bestKeyLen
      decreases |left|
    {
      var key :| key in left;
      left := left - {key};
      var k := Lower(key);
      if |k| <= bestKeyLen {
        continue;
      }
      if !(k <= m) {
        continue;
      }
      if |m| > |k| && m[|k|] != '-' {
        continue;
      }
      best := table[key];
      bestKeyLen := |k|;
      bestKey := key;
    }
    if bestKeyLen > 0 {
      assert Winner(table, model, bestKey);
    }
  }

  /** No two keys differ only in case. */
  predicate CaseDistinct(table: map<string, Price>) {
    forall a, b :: a in table && b in table && Lower(a) == Lower(b) ==> a == b
  }

  /** Matching keys of one length are the same but for case. */
  lemma WinnersAlike(table: map<string, Price>, model: string, a: string, b: string)
    requires Winner(table, model, a) && Winner(table, model, b)
    ensures Lower(a) == Lower(b)
  {
    assert |a| == |b|;
    assert Lower(a) == Lower(model)[..|a|] == Lower(b);
  }

  /** With keys distinct up to case the price is one and the same for every iteration order. */
  lemma LookupUnique(table: map<string, Price>, model: string, p: Price, q: Price)
    requires CaseDistinct(table) && IsLookup(table, model, p) && IsLookup(table, model, q)
    ensures p == q
  {
    if a, b :| a in table && b in table && Winner(table, model, a) && Winner(table, model, b)
               && table[a] == p && table[b] == q {
      WinnersAlike(table, model, a, b);
    }
  }

  /** Two keys that differ only in case, at two prices, make the answer depend on the order. */
  lemma CaseClash(table: map<string, Price>, a: string, b: string)
    requires a in table && b in table && a != "" && Lower(a) == Lower(b)
    ensures IsLookup(table, a, table[a]) && IsLookup(table, a, table[b])
  {
    forall k | k in table && Candidate(table, a, k)
      ensures |k| <= |a|
    {
    }
    assert Winner(table, a, a) && Winner(table, a, b);
  }

  /** The lookup is one-valued for all models exactly when keys that differ only in case agree on the price. */
  lemma OneValuedIff(table: map<string, Price>)
    ensures (forall model, p, q :: IsLookup(table, model, p) && IsLookup(table, model, q) ==> p == q)
      <==> forall a, b :: a in table && b in table && a != "" && Lower(a) == Lower(b) ==> table[a] == table[b]
  {
    if forall a, b :: a in table && b in table && a != "" && Lower(a) == Lower(b) ==> table[a] == table[b] {
      forall model, p, q | IsLookup(table, model, p) && IsLookup(table, model, q)
        ensures p == q
      {
        if a, b :| a in table && b in table && Winner(table, model, a) && Winner(table, model, b)
                   && table[a] == p && table[b] == q {
          WinnersAlike(table, model, a, b);
        }
      }
    } else {
      var a, b :| a in table && b in table && a != "" && Lower(a) == Lower(b) && table[a] != table[b];
      CaseClash(table, a, b);
    }
  }

  /** A table of one key prices the models that are the key up to case, or go on with a dash behind it. */
  lemma OneKeyPrices(key: string, price: Price, model: string, p: Price)
    requires key != ""
    ensures IsLookup(map[key := price], model, p) <==>
      p == if Lower(model) == Lower(key)
              || (|model| > |key| && Lower(model)[..|key|] == Lower(key) && Lower(model)[|key|] == '-')
           then price else FREE
  {
    var table := map[key := price];
    assert Candidate(table, model, key) ==> Winner(table, model, key);
  }

  /** Of the keys that name a model the longest is priced. */
  lemma LongestPriced(table: map<string, Price>, model: string, key: string, p: Price)
    requires CaseDistinct(table) && IsLookup(table, model, p)
    requires key in table && key != "" && Lower(key) <= Lower(model) && (|key| == |model| || Lower(model)[|key|] == '-')
    requires forall k :: k in table && |k| > |key| ==> !(Lower(k) <= Lower(model))
    ensures p == table[key]
  {
    forall k | k in table && Candidate(table, model, k)
      ensures |k| <= |key|
    {
    }
    assert Winner(table, model, key);
    LookupUnique(table, model, p, table[key]);
  }
}
