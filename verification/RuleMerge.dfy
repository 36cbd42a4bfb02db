/** Merging the collected rules: one rule a code, the ring of its first appearance, and the longest
    requirement that ring offers. */
module RuleMerge {
  import opened CallWalk

  /** A rule without a code is filed under its source. */
  function KeyOf(r: Rule): string {
    if r.code != "" then r.code else "@" + r.source
  }

  datatype Merge = Merge(order: seq<string>, best: map<string, Rule>)

  predicate Longer(r: Rule, cur: Rule) {
    r.ring == cur.ring && |r.requirement| > |cur.requirement|
  }

  function Step(s: Merge, r: Rule): Merge {
    var k := KeyOf(r);
    if k !in s.best then Merge(s.order + [k], s.best[k := r])
    else if Longer(r, s.best[k])
    then s.(best := s.best[k := Rule(s.best[k].code, r.requirement, r.source, s.best[k].ring)])
    else s
  }

  function Merged(rules: seq<Rule>): Merge {
    if rules == [] then Merge([], map[])
    else Step(Merged(rules[..|rules| - 1]), rules[|rules| - 1])
  }

  /** Codes carry their own prefix; none looks like a source key. */
  predicate Plain(r: Rule) {
    r.code != "" ==> r.code[0] != '@'
  }

  predicate PlainCodes(rules: seq<Rule>) {
    forall i :: 0 <= i < |rules| ==> Plain(rules[i])
  }

  // ---------------------------------------------------------------- positions in the input

  /** The first position that files under `k`, or -1. */
  function First(rules: seq<Rule>, k: string): (p: int)
    ensures -1 <= p < |rules|
  {
    if rules == [] then -1
    else
      var n := |rules| - 1;
      var p := First(rules[..n], k);
      if p < 0 && KeyOf(rules[n]) == k then n else p
  }

  /** The first longest requirement that `ring` offers for `k`, or -1. */
  function Longest(rules: seq<Rule>, k: string, ring: string): (p: int)
    ensures -1 <= p < |rules|
  {
    if rules == [] then -1
    else
      var n := |rules| - 1;
      var p := Longest(rules[..n], k, ring);
      if KeyOf(rules[n]) == k && rules[n].ring == ring
         && (p < 0 || |rules[n].requirement| > |rules[p].requirement|) then n
      else p
  }

  lemma {:induction false} FirstIs(rules: seq<Rule>, k: string)
    ensures var p := First(rules, k);
            && (p >= 0 ==> KeyOf(rules[p]) == k)
            && (forall j :: 0 <= j < |rules| && (j < p || p < 0) ==> KeyOf(rules[j]) != k)
  {
    if rules != [] {
      FirstIs(rules[..|rules| - 1], k);
      assert forall j :: 0 <= j < |rules| - 1 ==> rules[..|rules| - 1][j] == rules[j];
    }
  }

  lemma {:induction false} LongestIs(rules: seq<Rule>, k: string, ring: string)
    ensures var p := Longest(rules, k, ring);
            && (p >= 0 ==> KeyOf(rules[p]) == k && rules[p].ring == ring)
            && (forall j :: 0 <= j < |rules| && KeyOf(rules[j]) == k && rules[j].ring == ring ==>
                  p >= 0 && |rules[j].requirement| <= |rules[p].requirement|
                  && (j < p ==> |rules[j].requirement| < |rules[p].requirement|))
  {
    if rules != [] {
      LongestIs(rules[..|rules| - 1], k, ring);
      assert forall j :: 0 <= j < |rules| - 1 ==> rules[..|rules| - 1][j] == rules[j];
    }
  }

  // ---------------------------------------------------------------- what the merge keeps

  /** The rule the merge owes for `k`: as given in the input, from the ring that mentioned `k` first. */
  function Owed(rules: seq<Rule>, k: string): Rule
    requires First(rules, k) >= 0
    requires Longest(rules, k, rules[First(rules, k)].ring) >= 0
  {
    rules[Longest(rules, k, rules[First(rules, k)].ring)]
  }

  predicate Has(rules: seq<Rule>, k: string) {
    First(rules, k) >= 0 && Longest(rules, k, rules[First(rules, k)].ring) >= 0
  }

  /** The keys of a list of rules are those of `rules`, once each, in order of first appearance. */
  ghost predicate SameKeys(rules: seq<Rule>, keys: seq<string>) {
    && (forall k :: k in keys <==> First(rules, k) >= 0)
    && (forall i, j :: 0 <= i < j < |keys| ==> First(rules, keys[i]) < First(rules, keys[j]))
  }

  ghost predicate Rows(rules: seq<Rule>, best: map<string, Rule>) {
    forall k :: k in best ==> Has(rules, k) && best[k] == Owed(rules, k)
  }

  ghost predicate Right(rules: seq<Rule>, s: Merge) {
    && (forall k :: k in s.best <==> k in s.order)
    && SameKeys(rules, s.order)
    && Rows(rules, s.best)
  }

  lemma OneMore(rules: seq<Rule>, r: Rule, k: string)
    ensures var more := rules + [r];
            && First(more, k) == (if First(rules, k) < 0 && KeyOf(r) == k then |rules| else First(rules, k))
            && (First(rules, k) >= 0 ==> more[First(more, k)] == rules[First(rules, k)])
  {
    assert (rules + [r])[..|rules|] == rules;
  }

  lemma OneLonger(rules: seq<Rule>, r: Rule, k: string, ring: string)
    ensures var p := Longest(rules, k, ring);
            Longest(rules + [r], k, ring) ==
              if KeyOf(r) == k && r.ring == ring && (p < 0 || |r.requirement| > |rules[p].requirement|)
              then |rules| else p
  {
    assert (rules + [r])[..|rules|] == rules;
    var p := Longest(rules, k, ring);
    assert p >= 0 ==> (rules + [r])[p] == rules[p];
  }

  lemma SameCode(a: Rule, b: Rule)
    requires KeyOf(a) == KeyOf(b) && Plain(a) && Plain(b)
    ensures a.code == b.code
  {
    assert ("@" + a.source)[0] == '@' && ("@" + b.source)[0] == '@';
  }

  /** One row of the table after one more rule. */
  lemma RowAfter(rules: seq<Rule>, s: Merge, r: Rule, k: string)
    requires PlainCodes(rules) && Plain(r)
    requires k in s.best <==> First(rules, k) >= 0
    requires k in s.best ==> Has(rules, k) && s.best[k] == Owed(rules, k)
    ensures var t := Step(s, r);
            && (k in t.best <==> k in s.best || k == KeyOf(r))
            && (k in t.best ==> Has(rules + [r], k) && t.best[k] == Owed(rules + [r], k))
  {
    OneMore(rules, r, k);
    FirstIs(rules, k);
    if k in s.best {
      var ring := rules[First(rules, k)].ring;
      OneLonger(rules, r, k, ring);
      LongestIs(rules, k, ring);
      if k == KeyOf(r) {
        SameCode(s.best[k], r);
      }
    } else if k == KeyOf(r) {
      OneLonger(rules, r, k, r.ring);
      LongestIs(rules, k, r.ring);
    }
  }

  /** The order after one more rule. */
  function NextOrder(order: seq<string>, r: Rule): seq<string> {
    if KeyOf(r) in order then order else order + [KeyOf(r)]
  }

  lemma KeyAfter(rules: seq<Rule>, order: seq<string>, r: Rule, k: string)
    requires k in order <==> First(rules, k) >= 0
    ensures k in NextOrder(order, r) <==> First(rules + [r], k) >= 0
  {
    OneMore(rules, r, k);
  }

  lemma PairAfter(rules: seq<Rule>, order: seq<string>, r: Rule, i: nat, j: nat)
    requires SameKeys(rules, order) && i < j < |NextOrder(order, r)|
    ensures First(rules + [r], NextOrder(order, r)[i]) < First(rules + [r], NextOrder(order, r)[j])
  {
    var next := NextOrder(order, r);
    assert order[i] in order;
    OneMore(rules, r, next[i]);
    OneMore(rules, r, next[j]);
    if j < |order| {
      assert order[j] in order;
    }
  }

  lemma OrderAfter(rules: seq<Rule>, order: seq<string>, r: Rule)
    requires SameKeys(rules, order)
    ensures SameKeys(rules + [r], NextOrder(order, r))
  {
    var next := NextOrder(order, r);
    forall k
      ensures k in next <==> First(rules + [r], k) >= 0
    {
      KeyAfter(rules, order, r, k);
    }
    forall i, j | 0 <= i < j < |next|
      ensures First(rules + [r], next[i]) < First(rules + [r], next[j])
    {
      PairAfter(rules, order, r, i, j);
    }
  }

  lemma RowsAfter(rules: seq<Rule>, s: Merge, r: Rule)
    requires Rows(rules, s.best) && PlainCodes(rules) && Plain(r)
    requires forall k :: k in s.best <==> First(rules, k) >= 0
    ensures Rows(rules + [r], Step(s, r).best)
  {
    var best := Step(s, r).best;
    forall k | k in best
      ensures Has(rules + [r], k) && best[k] == Owed(rules + [r], k)
    {
      RowAfter(rules, s, r, k);
    }
  }

  lemma StepRight(rules: seq<Rule>, s: Merge, r: Rule)
    requires Right(rules, s) && PlainCodes(rules) && Plain(r)
    ensures Right(rules + [r], Step(s, r))
  {
    OrderAfter(rules, s.order, r);
    RowsAfter(rules, s, r);
  }

  /** THE MERGE: the same keys as the input in the order of first appearance, and for each the first of
      the longest requirements offered by the ring that appeared first. */
  lemma {:induction false} MergeRight(rules: seq<Rule>)
    requires PlainCodes(rules)
    ensures Right(rules, Merged(rules))
  {
    if rules != [] {
      var n := |rules| - 1;
      assert rules[..n] + [rules[n]] == rules;
      MergeRight(rules[..n]);
      StepRight(rules[..n], Merged(rules[..n]), rules[n]);
    }
  }

  function Keys(rules: seq<Rule>): seq<string> {
    seq(|rules|, i requires 0 <= i < |rules| => KeyOf(rules[i]))
  }

  function Listing(s: Merge): seq<Rule>
    requires forall k :: k in s.order ==> k in s.best
  {
    seq(|s.order|, i requires 0 <= i < |s.order| => s.best[s.order[i]])
  }

  lemma ListingRight(rules: seq<Rule>, s: Merge)
    requires Right(rules, s)
    ensures Keys(Listing(s)) == s.order
    ensures forall i :: 0 <= i < |s.order| ==> Has(rules, s.order[i]) && Listing(s)[i] == Owed(rules, s.order[i])
  {
    forall i | 0 <= i < |s.order|
      ensures KeyOf(Listing(s)[i]) == s.order[i]
      ensures Has(rules, s.order[i]) && Listing(s)[i] == Owed(rules, s.order[i])
    {
      var k := s.order[i];
      assert k in s.order;
      LongestIs(rules, k, rules[First(rules, k)].ring);
    }
  }

  method Dedupe(rules: seq<Rule>) returns (out: seq<Rule>)
    requires PlainCodes(rules)
    ensures SameKeys(rules, Keys(out))
    ensures forall i :: 0 <= i < |out| ==> Has(rules, Keys(out)[i]) && out[i] == Owed(rules, Keys(out)[i])
  {
    var order: seq<string>, best: map<string, Rule> := [], map[];
    var i := 0;
    while i < |rules|
      invariant 0 <= i <= |rules|
      invariant Merge(order, best) == Merged(rules[..i])
      invariant forall k :: k in order ==> k in best
    {
      var r := rules[i];
      assert rules[..i + 1][..i] == rules[..i] && rules[..i + 1][i] == r;
      var k := KeyOf(r);
      if k !in best {
        order, best := order + [k], best[k := r];
      } else {
        var cur := best[k];
        if Longer(r, cur) {
          best := best[k := Rule(cur.code, r.requirement, r.source, cur.ring)];
        }
      }
      i := i + 1;
    }
    assert rules[..|rules|] == rules;
    MergeRight(rules);
    ListingRight(rules, Merged(rules));
    out := Listing(Merge(order, best));
  }

  /** The table of rules with different keys: each rule as given. */
  ghost predicate Unmerged(rules: seq<Rule>, s: Merge) {
    && s.order == Keys(rules)
    && (forall i :: 0 <= i < |rules| ==> KeyOf(rules[i]) in s.best && s.best[KeyOf(rules[i])] == rules[i])
    && (forall k :: k in s.best ==> k in Keys(rules))
  }

  lemma UnmergedStep(rules: seq<Rule>, s: Merge, r: Rule)
    requires Unmerged(rules, s) && KeyOf(r) !in Keys(rules)
    ensures Unmerged(rules + [r], Step(s, r))
  {
    assert Keys(rules + [r]) == Keys(rules) + [KeyOf(r)];
    forall i | 0 <= i < |rules|
      ensures KeyOf(rules[i]) != KeyOf(r)
    {
      assert Keys(rules)[i] in Keys(rules);
    }
  }

  ghost predicate DistinctKeys(rules: seq<Rule>) {
    forall i, j :: 0 <= i < j < |rules| ==> KeyOf(rules[i]) != KeyOf(rules[j])
  }

  lemma LastIsNew(front: seq<Rule>, r: Rule)
    requires DistinctKeys(front + [r])
    ensures DistinctKeys(front) && KeyOf(r) !in Keys(front)
  {
    var rules := front + [r];
    forall i, j | 0 <= i < j < |front|
      ensures KeyOf(front[i]) != KeyOf(front[j])
    {
      assert rules[i] == front[i] && rules[j] == front[j];
    }
    forall i | 0 <= i < |front|
      ensures Keys(front)[i] != KeyOf(r)
    {
      assert rules[i] == front[i] && rules[|front|] == r;
    }
  }

  lemma MergedStep(front: seq<Rule>, r: Rule)
    ensures Merged(front + [r]) == Step(Merged(front), r)
  {
    assert (front + [r])[..|front|] == front;
  }

  lemma {:induction false} DistinctMerge(rules: seq<Rule>)
    requires DistinctKeys(rules)
    ensures Unmerged(rules, Merged(rules))
  {
    if rules != [] {
      var front, r := rules[..|rules| - 1], rules[|rules| - 1];
      assert rules == front + [r];
      LastIsNew(front, r);
      DistinctMerge(front);
      UnmergedStep(front, Merged(front), r);
      MergedStep(front, r);
    }
  }

  lemma DistinctListed(rules: seq<Rule>, s: Merge)
    requires s.order == Keys(rules)
    requires forall i :: 0 <= i < |rules| ==> KeyOf(rules[i]) in s.best && s.best[KeyOf(rules[i])] == rules[i]
    ensures forall k :: k in s.order ==> k in s.best
    ensures Listing(s) == rules
  {
    forall k | k in s.order
      ensures k in s.best
    {
      var i :| 0 <= i < |s.order| && s.order[i] == k;
      assert KeyOf(rules[i]) == k;
    }
    forall i | 0 <= i < |rules|
      ensures Listing(s)[i] == rules[i]
    {
      assert s.order[i] == KeyOf(rules[i]);
    }
  }

  /** Merging a merged list changes nothing. */
  lemma MergeIdempotent(rules: seq<Rule>, once: seq<Rule>)
    requires SameKeys(rules, Keys(once))
    ensures forall k :: k in Merged(once).order ==> k in Merged(once).best
    ensures Listing(Merged(once)) == once
  {
    var keys := Keys(once);
    forall i, j | 0 <= i < j < |once|
      ensures KeyOf(once[i]) != KeyOf(once[j])
    {
      assert keys[i] == KeyOf(once[i]) && keys[j] == KeyOf(once[j]);
    }
    DistinctMerge(once);
    DistinctListed(once, Merged(once));
  }
}
