/** Provider and plan names: one canonical spelling, the cap table, and client-declared providers. */
module CapacityNames {
  import opened Text

  const OLLAMA := "ollama-cloud"
  const DEEPSEEK := "deepseek-direct"
  const OPENROUTER := "openrouter"

  const OLLAMA_20 := "$20/month"
  const OLLAMA_100 := "$100/month"
  const DS_PRO := "v4-pro"
  const DS_FLASH := "v4-flash"

  const DEFAULT_CONSERVATIVE := 3

  /** The concurrency row of a (provider, plan) pair; None when the pair is not in the table. */
  function CapTable(provider: string, plan: string): Option<int> {
    if provider == OLLAMA && plan == OLLAMA_20 then Some(3)
    else if provider == OLLAMA && plan == OLLAMA_100 then Some(8)
    else if provider == DEEPSEEK && plan == DS_FLASH then Some(2500)
    else if provider == DEEPSEEK && plan == DS_PRO then Some(500)
    else None
  }

  /** (account limit, default reserve) of a pair. */
  function AccountLimit(provider: string, plan: string): Option<(int, int)> {
    if provider == OLLAMA && plan == OLLAMA_20 then Some((3, 0))
    else if provider == OLLAMA && plan == OLLAMA_100 then Some((10, 2))
    else if provider == DEEPSEEK && plan == DS_FLASH then Some((2500, 0))
    else if provider == DEEPSEEK && plan == DS_PRO then Some((500, 0))
    else None
  }

  /** The rows of the two tables, and that a row is what the account limit leaves beside the default reserve. */
  lemma RowsExactly(p: string, plan: string, n: int, reserve: int)
    ensures CapTable(p, plan) == Some(n) <==>
            (p, plan, n) in {("ollama-cloud", "$20/month", 3), ("ollama-cloud", "$100/month", 8),
                             ("deepseek-direct", "v4-flash", 2500), ("deepseek-direct", "v4-pro", 500)}
    ensures AccountLimit(p, plan) == Some((n + reserve, reserve)) <==>
            CapTable(p, plan) == Some(n) && reserve == if plan == "$100/month" then 2 else 0
  {
  }

  predicate Structural(provider: string) {
    provider == OLLAMA || provider == DEEPSEEK
  }

  // ---------------------------------------------------------------- provider names

  function DashChar(c: char): char {
    if c == '_' || c == ' ' then '-' else c
  }

  function Dashes(s: string): string {
    seq(|s|, i requires 0 <= i < |s| => DashChar(s[i]))
  }

  /** Lower case, dashes for underscores and spaces, no outer blanks; None for an empty name. */
  function CanonicalToken(raw: string): Option<string> {
    var token := Dashes(Lower(Strip(raw)));
    if token == "" then None else Some(token)
  }

  const REFUSED: set<string> := {"ollama-local", "ollama-localhost", "local-ollama"}

  function TableProvider(token: string): Option<string> {
    if token in REFUSED then None
    else if token in {"ollamacloud", "ollama", "ollman"} || OLLAMA <= token then Some(OLLAMA)
    else if token in {"ds", "ds-max", "dspro", "dspro-max", "dspromax"} || "deepseek" <= token then Some(DEEPSEEK)
    else if token == "open-router" || OPENROUTER <= token then Some(OPENROUTER)
    else None
  }

  /** The providers a client names in the model plan and that no table row and no refusal covers. */
  function DeclaredProviders(named: set<string>): set<string> {
    set raw | raw in named && CanonicalToken(raw).Some? && CanonicalToken(raw).value !in REFUSED
              && TableProvider(CanonicalToken(raw).value).None? :: CanonicalToken(raw).value
  }

  function NormalizeProvider(raw: string, declared: set<string>): Option<string> {
    match CanonicalToken(raw)
    case None => None
    case Some(token) =>
      var hit := TableProvider(token);
      if hit.Some? then hit
      else if token in REFUSED then None
      else if token in declared then Some(token)
      else None
  }

  /** A token that is already in canonical spelling is its own canonical token. */
  lemma CanonicalTokenStable(raw: string)
    requires CanonicalToken(raw).Some?
    ensures CanonicalToken(CanonicalToken(raw).value) == CanonicalToken(raw)
  {
    StripEnds(raw);
    var t := CanonicalToken(raw).value;
    assert |t| == |Strip(raw)|;
    forall i | 0 <= i < |t|
      ensures t[i] == DashChar(LowerChar(Strip(raw)[i]))
    {
    }
    assert Trimmed(t);
    StripEnds(t);
    assert Lower(t) == t;
    assert Dashes(t) == t;
  }

  lemma CanonicalTokenOfPlain(t: string)
    requires t != "" && forall c :: c in t ==> c == '-' || 'a' <= c <= 'z'
    ensures CanonicalToken(t) == Some(t)
  {
    StripEnds(t);
    assert t[0] in t && t[|t| - 1] in t;
    assert Trimmed(t);
    assert forall i :: 0 <= i < |t| ==> t[i] in t;
    assert Lower(t) == t;
    assert Dashes(t) == t;
  }

  /** The canonical token has the same length as the stripped name, in lower case, with a dash for each underscore
      and each blank; only a blank name has none. */
  lemma TokenExactly(raw: string)
    ensures CanonicalToken(raw).None? <==> Blank(raw)
    ensures CanonicalToken(raw).Some? ==>
              var (t, m) := (CanonicalToken(raw).value, Lower(Strip(raw)));
              |t| == |m| && forall i :: 0 <= i < |t| ==> t[i] == if m[i] in "_ " then '-' else m[i]
  {
    StripEmpty(raw);
    assert |Dashes(Lower(Strip(raw)))| == |Strip(raw)|;
  }

  /** Each table id is its own canonical token and its own table entry. */
  lemma TableIds(p: string)
    requires p == OLLAMA || p == DEEPSEEK || p == OPENROUTER
    ensures CanonicalToken(p) == Some(p) && TableProvider(p) == Some(p)
  {
    CanonicalTokenOfPlain(p);
    if p == DEEPSEEK {
      assert p[2] == 'e' && "ollama-cloud"[0] == 'o' && p[0] == 'd';
      assert !(OLLAMA <= p);
      assert "deepseek" <= p;
    } else if p == OPENROUTER {
      assert p[1] == 'p' && OLLAMA[1] == 'l' && "deepseek"[0] == 'd' && p[0] == 'o';
      assert !(OLLAMA <= p) && !("deepseek" <= p);
    }
    assert p !in REFUSED;
  }

  /** A table hit is one of the three table ids. */
  lemma TableHit(token: string)
    ensures var hit := TableProvider(token);
            hit.Some? ==> hit.value == OLLAMA || hit.value == DEEPSEEK || hit.value == OPENROUTER
  {
  }

  /** Normalising twice is normalising once, and a name that normalises is a table provider or one
      the client declared; a declaration never names a table provider. */
  lemma NormalizeIdempotent(raw: string, named: set<string>)
    ensures var declared := DeclaredProviders(named);
            var p := NormalizeProvider(raw, declared);
            p.Some? ==>
              && NormalizeProvider(p.value, declared) == p
              && (Structural(p.value) || p.value == OPENROUTER || p.value in declared)
              && p.value != ""
  {
    if CanonicalToken(raw).Some? {
      CanonicalTokenStable(raw);
      var token := CanonicalToken(raw).value;
      TableHit(token);
      if TableProvider(token).Some? {
        TableIds(TableProvider(token).value);
      }
    }
  }

  lemma DeclaredAvoidsTable(p: string, named: set<string>)
    requires p == OLLAMA || p == DEEPSEEK || p == OPENROUTER
    ensures p !in DeclaredProviders(named)
  {
    TableIds(p);
  }

  /** Which account a name stands for: one of the three the table knows, by a spelling or by how it begins, and
      otherwise itself, exactly when a client named it and it is not the local Ollama. */
  lemma ProviderExactly(raw: string, t: string, named: set<string>)
    requires CanonicalToken(raw) == Some(t)
    ensures var p := NormalizeProvider(raw, DeclaredProviders(named));
            var ollama := t in {"ollamacloud", "ollama", "ollman"} || "ollama-cloud" <= t;
            var deepseek := t in {"ds", "ds-max", "dspro", "dspro-max", "dspromax"} || "deepseek" <= t;
            var openrouter := t == "open-router" || "openrouter" <= t;
            && (p == Some("ollama-cloud") <==> ollama)
            && (p == Some("deepseek-direct") <==> deepseek)
            && (p == Some("openrouter") <==> openrouter)
            && (!ollama && !deepseek && !openrouter ==>
                  p == if (exists n :: n in named && CanonicalToken(n) == Some(t))
                          && t !in {"ollama-local", "ollama-localhost", "local-ollama"}
                       then Some(t) else None)
  {
    TableHit(t);
    DeclaredAvoidsTable(OLLAMA, named);
    DeclaredAvoidsTable(DEEPSEEK, named);
    DeclaredAvoidsTable(OPENROUTER, named);
    assert "ollama-cloud" <= t ==> t[0] == 'o' && t[1] == 'l' && t[6] == '-' && t[7] == 'c';
    assert "deepseek" <= t ==> t[0] == 'd' && t[1] == 'e';
    assert "openrouter" <= t ==> t[0] == 'o' && t[1] == 'p';
  }

  // ---------------------------------------------------------------- plan names

  function Digits(s: string): string {
    if s == "" then "" else (if '0' <= s[0] <= '9' then [s[0]] else "") + Digits(s[1..])
  }

  /** The cap-table plan a text names for this provider; with no provider either family may match. */
  function NormalizePlan(raw: Option<string>, provider: Option<string>): Option<string> {
    if raw.None? || Lower(Strip(raw.value)) == "" then None
    else
      var token := Lower(Strip(raw.value));
      if (provider == Some(OLLAMA) || provider.None?) && Digits(token) == "20" then Some(OLLAMA_20)
      else if (provider == Some(OLLAMA) || provider.None?) && Digits(token) == "100" then Some(OLLAMA_100)
      else if (provider == Some(DEEPSEEK) || provider.None?) && Contains(Dashes(token), "pro") then Some(DS_PRO)
      else if (provider == Some(DEEPSEEK) || provider.None?) && Contains(Dashes(token), "flash") then Some(DS_FLASH)
      else None
  }

  /** What a plan text names. For Ollama only its digits count, for DeepSeek only the words in it, in any case and
      between any blanks; with no account either may match, digits first; no other account has plans. */
  lemma OllamaPlanExactly(raw: string)
    ensures NormalizePlan(Some(raw), Some("ollama-cloud"))
            == if Digits(raw) == "20" then Some("$20/month")
               else if Digits(raw) == "100" then Some("$100/month") else None
  {
    DigitsOfToken(raw);
    OllamaToken(raw, Digits(raw));
  }

  lemma OllamaToken(raw: string, digits: string)
    requires digits == Digits(Lower(Strip(raw)))
    ensures NormalizePlan(Some(raw), Some(OLLAMA))
            == if digits == "20" then Some(OLLAMA_20) else if digits == "100" then Some(OLLAMA_100) else None
  {
    assert OLLAMA[0] == 'o' && DEEPSEEK[0] == 'd';
    if Lower(Strip(raw)) == "" {
      assert |digits| == 0 && |"20"| == 2 && |"100"| == 3;
    }
  }

  lemma DeepseekPlanExactly(raw: string)
    ensures NormalizePlan(Some(raw), Some("deepseek-direct"))
            == if Contains(Lower(raw), "pro") then Some("v4-pro")
               else if Contains(Lower(raw), "flash") then Some("v4-flash") else None
  {
    WordOfToken(raw, "pro");
    WordOfToken(raw, "flash");
    if Lower(Strip(raw)) == "" {
      assert !Contains(Dashes(""), "pro") && !Contains(Dashes(""), "flash");
    }
  }

  lemma OtherPlanExactly(raw: string, p: string)
    ensures NormalizePlan(Some(raw), None)
            == if NormalizePlan(Some(raw), Some("ollama-cloud")).Some?
               then NormalizePlan(Some(raw), Some("ollama-cloud"))
               else NormalizePlan(Some(raw), Some("deepseek-direct"))
    ensures p != "ollama-cloud" && p != "deepseek-direct" ==> NormalizePlan(Some(raw), Some(p)).None?
    ensures NormalizePlan(None, Some(p)).None? && NormalizePlan(None, None).None?
  {
    assert OLLAMA[0] != DEEPSEEK[0];
  }

  lemma DigitsOfToken(raw: string)
    ensures Digits(Lower(Strip(raw))) == Digits(raw)
  {
    var a, b := StripIs(raw);
    DigitsOfLower(Strip(raw));
    DigitsParts(a + Strip(raw), b);
    DigitsParts(a, Strip(raw));
    DigitRun(a);
    DigitRun(b);
  }

  lemma {:induction false} DigitsOfLower(s: string)
    ensures Digits(Lower(s)) == Digits(s)
  {
    if s != "" {
      assert Lower(s)[1..] == Lower(s[1..]);
      DigitsOfLower(s[1..]);
    }
  }

  predicate Word(s: string) {
    s != "" && forall j :: 0 <= j < |s| ==> 'a' <= s[j] <= 'z'
  }

  /** A word is found in the token exactly where it is found in the text, as no letter is a blank or a dash. */
  lemma WordOfToken(raw: string, word: string)
    requires Word(word)
    ensures Contains(Dashes(Lower(Strip(raw))), word) <==> Contains(Lower(raw), word)
  {
    var a, b := StripIs(raw);
    Around(a, Strip(raw), b);
    if Contains(Dashes(Lower(Strip(raw))), word) {
      WordOut(Dashes(Lower(Strip(raw))), Lower(raw), |a|, word);
    }
    if Contains(Lower(raw), word) {
      WordIn(Dashes(Lower(Strip(raw))), Lower(raw), |a|, word);
    }
  }

  /** The token stands in the text from n on, up to the dashes, and all around it is blank. */
  predicate Framed(token: string, low: string, n: nat) {
    && n + |token| <= |low|
    && (forall i :: 0 <= i < |token| ==> token[i] == DashChar(low[n + i]))
    && (forall i :: 0 <= i < |low| && !(n <= i < n + |token|) ==> IsSpace(low[i]))
  }

  lemma Around(a: string, m: string, b: string)
    requires Blank(a) && Blank(b)
    ensures Framed(Dashes(Lower(m)), Lower(a + m + b), |a|)
  {
  }

  lemma WordOut(token: string, low: string, n: nat, word: string)
    requires Word(word) && Framed(token, low, n) && Contains(token, word)
    ensures Contains(low, word)
  {
    var i :| 0 <= i <= |token| && word <= token[i..];
    forall j | 0 <= j < |word|
      ensures low[n + i + j] == word[j]
    {
      assert token[i + j] == token[i..][j];
    }
    FoundAt(low, word, n + i);
  }

  lemma WordIn(token: string, low: string, n: nat, word: string)
    requires Word(word) && Framed(token, low, n) && Contains(low, word)
    ensures Contains(token, word)
  {
    var k :| 0 <= k <= |low| && word <= low[k..];
    LetterInside(token, low, n, word, k, 0);
    LetterInside(token, low, n, word, k, |word| - 1);
    forall j | 0 <= j < |word|
      ensures token[k - n + j] == word[j]
    {
      LetterInside(token, low, n, word, k, j);
    }
    FoundAt(token, word, k - n);
  }

  lemma LetterInside(token: string, low: string, n: nat, word: string, k: nat, j: nat)
    requires Word(word) && Framed(token, low, n) && j < |word| && k <= |low| && word <= low[k..]
    ensures n <= k + j < n + |token| && token[k + j - n] == word[j]
  {
    assert low[k + j] == low[k..][j] == word[j];
  }

  lemma FoundAt(hay: string, word: string, i: nat)
    requires i + |word| <= |hay| && forall j :: 0 <= j < |word| ==> hay[i + j] == word[j]
    ensures Contains(hay, word)
  {
    assert hay[i..][..|word|] == word;
  }

  /** A plan is resolved only for a structural provider, and always to one of that provider's rows. */
  lemma PlanHasRow(raw: Option<string>, p: string)
    ensures var plan := NormalizePlan(raw, Some(p));
            plan.Some? ==> Structural(p) && CapTable(p, plan.value).Some?
  {
  }

  // A recognised plan names itself.

  predicate IsDigit(c: char) {
    '0' <= c <= '9'
  }

  lemma {:induction false} DigitsParts(a: string, b: string)
    ensures Digits(a + b) == Digits(a) + Digits(b)
  {
    if a == "" {
      assert a + b == b;
    } else {
      assert (a + b)[1..] == a[1..] + b;
      DigitsParts(a[1..], b);
    }
  }

  lemma {:induction false} DigitRun(s: string)
    ensures (forall i :: 0 <= i < |s| ==> IsDigit(s[i])) ==> Digits(s) == s
    ensures (forall i :: 0 <= i < |s| ==> !IsDigit(s[i])) ==> Digits(s) == ""
  {
    if s != "" {
      DigitRun(s[1..]);
      assert s == [s[0]] + s[1..];
    }
  }

  predicate OnlyDigits(s: string) {
    forall i :: 0 <= i < |s| ==> IsDigit(s[i])
  }

  predicate NoDigits(s: string) {
    forall i :: 0 <= i < |s| ==> !IsDigit(s[i])
  }

  lemma MiddleDigits(t: string, a: string, b: string, c: string)
    requires t == a + b + c && NoDigits(a) && OnlyDigits(b) && NoDigits(c)
    ensures Digits(t) == b
  {
    DigitRun(a);
    DigitRun(b);
    DigitRun(c);
    DigitsParts(a, b);
    DigitsParts(a + b, c);
  }

  lemma OllamaDigits(t: string)
    requires t == OLLAMA_20 || t == OLLAMA_100
    ensures Digits(t) == if t == OLLAMA_20 then "20" else "100"
  {
    if t == OLLAMA_20 {
      MiddleDigits(t, "$", "20", "/month");
    } else {
      MiddleDigits(t, "$", "100", "/month");
    }
  }

  lemma DeepseekWords(t: string)
    requires t == DS_PRO || t == DS_FLASH
    ensures Contains(t, "pro") <==> t == DS_PRO
    ensures t == DS_FLASH ==> Contains(t, "flash")
  {
    if t == DS_PRO {
      assert t[3..] == "pro";
    } else {
      assert t[3..] == "flash";
      forall i | 0 <= i <= |t|
        ensures !("pro" <= t[i..])
      {
        assert i < |t| ==> t[i..][0] == t[i] != 'p';
      }
    }
  }

  lemma PlanSpelling(t: string)
    requires t == OLLAMA_20 || t == OLLAMA_100 || t == DS_PRO || t == DS_FLASH
    ensures Lower(Strip(t)) == t && Dashes(t) == t
  {
    assert Trimmed(t);
    StripEnds(t);
    assert Lower(t) == t;
    assert Dashes(t) == t;
  }

  lemma OllamaStable(t: string)
    requires t != "" && Lower(Strip(t)) == t
    requires Digits(t) == "20" || Digits(t) == "100"
    ensures NormalizePlan(Some(t), Some(OLLAMA)) == Some(if Digits(t) == "20" then OLLAMA_20 else OLLAMA_100)
  {
  }

  lemma DeepseekStable(t: string)
    requires t != "" && Lower(Strip(t)) == t && Dashes(t) == t
    requires Contains(t, "pro") || Contains(t, "flash")
    ensures NormalizePlan(Some(t), Some(DEEPSEEK)) == Some(if Contains(t, "pro") then DS_PRO else DS_FLASH)
  {
  }

  /** The plan of every cap-table row is recognised as itself. */
  lemma PlanStable(plan: string, p: string)
    requires CapTable(p, plan).Some?
    ensures NormalizePlan(Some(plan), Some(p)) == Some(plan)
  {
    PlanSpelling(plan);
    if p == OLLAMA {
      OllamaDigits(plan);
      OllamaStable(plan);
    } else {
      DeepseekWords(plan);
      DeepseekStable(plan);
    }
  }

  /** A spelling that is not the canonical one, and is still recognised on every box. */
  lemma ShortOllama(declared: set<string>)
    ensures NormalizeProvider("ollama", declared) == Some(OLLAMA) && "ollama" != OLLAMA
    ensures NormalizeProvider(OLLAMA, declared) == Some(OLLAMA)
    ensures NormalizeProvider(OPENROUTER, declared) == Some(OPENROUTER)
  {
    TableIds(OLLAMA);
    TableIds(OPENROUTER);
    CanonicalTokenOfPlain("ollama");
    assert |"ollama"| != |OLLAMA|;
    assert "ollama" !in REFUSED;
  }

  function PlanFromModel(provider: string, slug: string): Option<string> {
    if provider != DEEPSEEK then None
    else if Contains(Lower(slug), "pro") then Some(DS_PRO)
    else if Contains(Lower(slug), "flash") then Some(DS_FLASH)
    else None
  }
}
