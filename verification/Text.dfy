/** Text and lookup helpers shared by the models: the ASCII part of Python's
    `strip`, `lower` and `in`, an Option type, JSON values, and a dict that keeps insertion order. */
module Text {

  datatype Option<+T> = None | Some(value: T)

  /** A parsed JSON value without fractions. */
  datatype Json = Null | Flag(b: bool) | Number(n: int) | Str(s: string)
                | List(items: seq<Json>) | Object(fields: seq<(string, Json)>)

  /** The first position that passes, or the length when none does. */
  function FirstWhere<T>(s: seq<T>, passes: T -> bool): (k: nat)
    ensures k <= |s| && (k < |s| ==> passes(s[k]))
    ensures forall j :: 0 <= j < k ==> !passes(s[j])
  {
    if s == [] then 0
    else if passes(s[0]) then 0
    else
      var rest := FirstWhere(s[1..], passes);
      assert forall j :: 0 < j < rest + 1 ==> s[1..][j - 1] == s[j];
      rest + 1
  }

  /** The ASCII characters that `str.strip` and the regular-expression class `\s` treat as blank. */
  predicate IsSpace(c: char) {
    9 <= c as int <= 13 || 28 <= c as int <= 32
  }

  function LowerChar(c: char): char {
    if 'A' <= c <= 'Z' then (c as int + 32) as char else c
  }

  function Lower(s: string): string {
    seq(|s|, i requires 0 <= i < |s| => LowerChar(s[i]))
  }

  function StripLeft(s: string): string {
    if s != "" && IsSpace(s[0]) then StripLeft(s[1..]) else s
  }

  function StripRight(s: string): string {
    if s != "" && IsSpace(s[|s| - 1]) then StripRight(s[..|s| - 1]) else s
  }

  function Strip(s: string): string {
    StripRight(StripLeft(s))
  }

  /** `needle in hay` for strings. */
  predicate Contains(hay: string, needle: string) {
    exists i {:trigger hay[i..]} :: 0 <= i <= |hay| && needle <= hay[i..]
  }

  predicate Blank(s: string) {
    forall i :: 0 <= i < |s| ==> IsSpace(s[i])
  }

  /** Stripping leaves nothing exactly when every character is blank. */
  lemma {:induction false} StripEmpty(s: string)
    ensures Strip(s) == "" <==> Blank(s)
  {
    StripLeftSuffix(s);
    StripRightBlank(StripLeft(s));
  }

  lemma {:induction false} StripLeftSuffix(s: string)
    ensures Blank(s) <==> Blank(StripLeft(s))
  {
    if s != "" && IsSpace(s[0]) {
      StripLeftSuffix(s[1..]);
      assert forall i :: 0 < i < |s| ==> s[i] == s[1..][i - 1];
      assert Blank(s) <==> Blank(s[1..]);
    }
  }

  lemma {:induction false} StripRightBlank(s: string)
    ensures StripRight(s) == "" <==> Blank(s)
  {
    if s != "" && IsSpace(s[|s| - 1]) {
      StripRightBlank(s[..|s| - 1]);
      assert forall i :: 0 <= i < |s| - 1 ==> s[i] == s[..|s| - 1][i];
    } else if s != "" {
      assert !IsSpace(s[|s| - 1]);
    }
  }

  /** What `strip` returns neither begins nor ends with a blank, and such a text is left alone. */
  lemma {:induction false} StripEnds(s: string)
    ensures Trimmed(Strip(s))
    ensures Trimmed(s) ==> Strip(s) == s
  {
    StripLeftHead(s);
    StripRightPrefix(StripLeft(s));
  }

  predicate Trimmed(s: string) {
    s != "" ==> !IsSpace(s[0]) && !IsSpace(s[|s| - 1])
  }

  lemma {:induction false} StripLeftHead(s: string)
    ensures StripLeft(s) != "" ==> !IsSpace(StripLeft(s)[0])
  {
    if s != "" && IsSpace(s[0]) {
      StripLeftHead(s[1..]);
    }
  }

  lemma {:induction false} StripRightPrefix(s: string)
    ensures StripRight(s) <= s
    ensures StripRight(s) != "" ==> !IsSpace(StripRight(s)[|StripRight(s)| - 1])
  {
    if s != "" && IsSpace(s[|s| - 1]) {
      StripRightPrefix(s[..|s| - 1]);
    }
  }

  /** Stripping takes away blanks at the two ends and nothing else. */
  lemma StripIs(s: string) returns (a: string, b: string)
    ensures s == a + Strip(s) + b && Blank(a) && Blank(b)
  {
    a := StripLeftIs(s);
    b := StripRightIs(StripLeft(s));
  }

  lemma {:induction false} StripLeftIs(s: string) returns (a: string)
    ensures s == a + StripLeft(s) && Blank(a)
  {
    a := "";
    if s != "" && IsSpace(s[0]) {
      a := StripLeftIs(s[1..]);
      a := [s[0]] + a;
    }
  }

  lemma {:induction false} StripRightIs(s: string) returns (b: string)
    ensures s == StripRight(s) + b && Blank(b)
  {
    b := "";
    if s != "" && IsSpace(s[|s| - 1]) {
      b := StripRightIs(s[..|s| - 1]);
      b := b + [s[|s| - 1]];
    }
  }

  lemma StripBetween(a: string, m: string, b: string)
    requires Blank(a) && Blank(b) && m != "" && Trimmed(m)
    ensures Strip(a + m + b) == m
  {
    LeftBetween(a, m + b);
    RightBetween(m, b);
    assert a + m + b == a + (m + b);
  }

  lemma {:induction false} LeftBetween(a: string, m: string)
    requires Blank(a) && m != "" && !IsSpace(m[0])
    ensures StripLeft(a + m) == m
  {
    if a == "" {
      assert a + m == m;
    } else {
      assert (a + m)[1..] == a[1..] + m;
      LeftBetween(a[1..], m);
    }
  }

  lemma {:induction false} RightBetween(m: string, b: string)
    requires Blank(b) && m != "" && !IsSpace(m[|m| - 1])
    ensures StripRight(m + b) == m
  {
    if b == "" {
      assert m + b == m;
    } else {
      assert (m + b)[..|m + b| - 1] == m + b[..|b| - 1];
      RightBetween(m, b[..|b| - 1]);
    }
  }

  /** Lower case has the letter of the same place in the alphabet for each capital, and every other character
      as it was. */
  lemma LowerExactly(s: string)
    ensures |Lower(s)| == |s|
    ensures forall i :: 0 <= i < |s| ==>
              Lower(s)[i] == if s[i] in "ABCDEFGHIJKLMNOPQRSTUVWXYZ"
                             then "abcdefghijklmnopqrstuvwxyz"[s[i] as int - 65] else s[i]
  {
  }

  /** A blank text contains no marker that has a visible character. */
  lemma BlankContainsNothing(hay: string, needle: string)
    requires Blank(hay) && !Blank(needle)
    ensures !Contains(Lower(hay), needle)
  {
    var low := Lower(hay);
    var j :| 0 <= j < |needle| && !IsSpace(needle[j]);
    forall i | 0 <= i <= |low|
      ensures !(needle <= low[i..])
    {
      if i + j < |low| {
        assert low[i..][j] == low[i + j];
      }
    }
  }
}

/** Python dicts: insertion order is kept, an update stays in place, a new key goes last. */
module Dicts {
  import opened Text

  type Dict<V> = seq<(string, V)>

  function Get<V>(d: Dict<V>, k: string): Option<V> {
    if d == [] then None
    else if d[0].0 == k then Some(d[0].1)
    else Get(d[1..], k)
  }

  function Put<V>(d: Dict<V>, k: string, v: V): Dict<V> {
    if d == [] then [(k, v)]
    else if d[0].0 == k then [(k, v)] + d[1..]
    else [d[0]] + Put(d[1..], k, v)
  }

  function Without<V>(d: Dict<V>, k: string): Dict<V> {
    if d == [] then []
    else if d[0].0 == k then Without(d[1..], k)
    else [d[0]] + Without(d[1..], k)
  }

  /** Every key appears once, as in any dict. */
  predicate Unique<V>(d: Dict<V>) {
    forall i, j :: 0 <= i < j < |d| ==> d[i].0 != d[j].0
  }

  lemma {:induction false} GetPut<V>(d: Dict<V>, k: string, v: V, x: string)
    ensures Get(Put(d, k, v), x) == if x == k then Some(v) else Get(d, x)
  {
    if d != [] && d[0].0 != k {
      GetPut(d[1..], k, v, x);
      assert Put(d, k, v)[1..] == Put(d[1..], k, v);
    } else if d != [] {
      assert Put(d, k, v)[1..] == d[1..];
    }
  }

  lemma {:induction false} GetWithout<V>(d: Dict<V>, k: string, x: string)
    ensures Get(Without(d, k), x) == if x == k then None else Get(d, x)
  {
    if d != [] {
      GetWithout(d[1..], k, x);
      if d[0].0 != k {
        assert Without(d, k)[1..] == Without(d[1..], k);
      }
    }
  }

  /** A lookup finds a value exactly when some row carries the key. */
  lemma {:induction false} GetFinds<V>(d: Dict<V>, k: string)
    ensures Get(d, k).Some? <==> exists i :: 0 <= i < |d| && d[i].0 == k
    ensures Unique(d) ==> forall i :: 0 <= i < |d| && d[i].0 == k ==> Get(d, k) == Some(d[i].1)
  {
    if d != [] {
      GetFinds(d[1..], k);
      if exists i :: 0 < i < |d| && d[i].0 == k {
        var i :| 0 < i < |d| && d[i].0 == k;
        assert d[1..][i - 1].0 == k;
      }
      if Unique(d) {
        assert Unique(d[1..]) by {
          forall i, j | 0 <= i < j < |d| - 1 ensures d[1..][i].0 != d[1..][j].0 {
            assert d[1..][i] == d[i + 1] && d[1..][j] == d[j + 1];
          }
        }
        forall i | 0 <= i < |d| && d[i].0 == k ensures Get(d, k) == Some(d[i].1) {
          if i > 0 { assert d[1..][i - 1] == d[i]; }
        }
      }
    }
  }

  /** Writing back the value a key already has changes nothing. */
  lemma {:induction false} PutSame<V>(d: Dict<V>, k: string, v: V)
    requires Get(d, k) == Some(v)
    ensures Put(d, k, v) == d
  {
    if d != [] && d[0].0 != k {
      PutSame(d[1..], k, v);
    }
  }

  /** Writing k leaves every row of another key where it was. */
  lemma {:induction false} PutRows<V>(d: Dict<V>, k: string, v: V)
    ensures |d| <= |Put(d, k, v)| <= |d| + 1
    ensures forall i :: 0 <= i < |d| ==>
              Put(d, k, v)[i].0 == d[i].0 && (d[i].0 != k ==> Put(d, k, v)[i] == d[i])
    ensures |Put(d, k, v)| == |d| + 1 ==> Put(d, k, v)[|d|] == (k, v)
    ensures Get(d, k).Some? ==> |Put(d, k, v)| == |d|
    ensures Get(d, k).None? ==> Put(d, k, v) == d + [(k, v)]
  {
    if d != [] && d[0].0 != k {
      PutRows(d[1..], k, v);
      var p := Put(d, k, v);
      forall i | 0 <= i < |d|
        ensures p[i].0 == d[i].0 && (d[i].0 != k ==> p[i] == d[i])
      {
        if i > 0 {
          assert p[i] == Put(d[1..], k, v)[i - 1] && d[i] == d[1..][i - 1];
        }
      }
    }
  }
}
