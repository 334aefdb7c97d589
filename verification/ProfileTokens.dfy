/** internal/simulator/media_provider.go, `generateProfileToken`: a token for a new media
    profile that no other profile uses. */
module ProfileTokens {
  import opened GoStrings
  import opened Sets

  predicate TokenChar(c: char) {
    'a' <= c <= 'z' || 'A' <= c <= 'Z' || '0' <= c <= '9' || c == '_'
  }

  /** The token alphabet, letter by letter. */
  lemma TokenAlphabet(c: char)
    ensures TokenChar(c) <==>
            c in "ABCDEFGHIJKLMNOPQRSTUVWXYZ" || c in "abcdefghijklmnopqrstuvwxyz" || c in "0123456789_"
  {
    InRange("ABCDEFGHIJKLMNOPQRSTUVWXYZ", 'A', c);
    InRange("abcdefghijklmnopqrstuvwxyz", 'a', c);
    InRange("0123456789", '0', c);
    assert "0123456789_" == "0123456789" + "_";
  }

  lemma InRange(s: string, first: char, c: char)
    requires forall i | 0 <= i < |s| :: s[i] as int == first as int + i
    ensures c in s <==> first as int <= c as int < first as int + |s|
  {
    if first as int <= c as int < first as int + |s| {
      assert s[c as int - first as int] == c;
    }
  }

  /** Runes outside the token alphabet become underscores. */
  function Sanitized(name: string): (r: string)
    ensures |r| == |name| && forall i | 0 <= i < |name| :: r[i] == if TokenChar(name[i]) then name[i] else '_'
  {
    if name == "" then "" else [if TokenChar(name[0]) then name[0] else '_'] + Sanitized(name[1..])
  }

  method SanitizeTokenChars(s: string) returns (r: string)
    ensures r == Sanitized(s)
  {
    r := "";
    for i := 0 to |s|
      invariant |r| == i && forall j | 0 <= j < i :: r[j] == if TokenChar(s[j]) then s[j] else '_'
    {
      r := r + [if TokenChar(s[i]) then s[i] else '_'];
    }
  }

  function Base(name: string): string { "profile_" + Sanitized(name) }

  /** The candidates in the order they are tried: the base, then `_2`, `_3`, ... */
  function Candidate(base: string, n: nat): string
    requires n > 0
  {
    if n == 1 then base else base + "_" + Itoa(n)
  }

  /** What the candidates look like: a fixed prefix and the sanitised name, and from the second
      one on an underscore and the number in decimal. */
  lemma CandidateText(name: string, n: nat)
    requires n > 0
    ensures var c := Candidate(Base(name), n);
            && |c| >= 8 + |name| && c[..8] == "profile_"
            && (forall i | 0 <= i < |name| :: c[8 + i] == if TokenChar(name[i]) then name[i] else '_')
            && (if n == 1 then |c| == 8 + |name|
                else |c| > 9 + |name| && c[8 + |name|] == '_'
                     && AllDigits(c[9 + |name|..]) && DigitsValue(c[9 + |name|..]) == n)
  {
    hide Itoa, DigitsValue;
    var c := Candidate(Base(name), n);
    if n > 1 {
      DigitsValueItoa(n);
      assert c[9 + |name|..] == Itoa(n);
    }
  }

  lemma CandidatesDiffer(base: string, m: nat, n: nat)
    requires 0 < m < n
    ensures Candidate(base, m) != Candidate(base, n)
  {
    if m > 1 && Candidate(base, m) == Candidate(base, n) {
      assert Candidate(base, m)[|base| + 1..] == Itoa(m);
      assert Candidate(base, n)[|base| + 1..] == Itoa(n);
      ItoaInjective(m, n);
    }
  }

  lemma {:induction false} CandidateChars(name: string, n: nat)
    requires n > 0
    ensures forall c <- Candidate(Base(name), n) :: TokenChar(c)
  {
  }

  lemma {:induction false} AtMostLength(tokens: seq<string>, s: set<string>)
    requires forall t <- s :: t in tokens
    ensures |s| <= |tokens|
  {
    if tokens == [] {
      assert s == {};
    } else {
      var init, last := tokens[..|tokens| - 1], tokens[|tokens| - 1];
      assert tokens == init + [last];
      AtMostLength(init, s - {last});
      assert s <= (s - {last}) + {last};
      SubsetSize(s, (s - {last}) + {last});
    }
  }

  /** As many candidates as have been found in use are that many different tokens. */
  lemma {:induction false} CandidatesInUse(base: string, n: nat, taken: set<string>) returns (tried: set<string>)
    requires n > 0 && forall k | 0 < k < n :: Candidate(base, k) in taken
    ensures tried <= taken && |tried| == n - 1
    ensures forall t <- tried :: exists k | 0 < k < n :: t == Candidate(base, k)
  {
    hide Candidate;
    tried := {};
    if n > 1 {
      tried := CandidatesInUse(base, n - 1, taken);
      forall k | 0 < k < n - 1 ensures Candidate(base, k) != Candidate(base, n - 1) {
        CandidatesDiffer(base, k, n - 1);
      }
      tried := tried + {Candidate(base, n - 1)};
    }
  }

  /** Tries candidates until one is free, which happens after at most one more try than
      there are profiles, and returns the first free one; `tries` counts them. */
  method GenerateProfileToken(tokens: seq<string>, name: string) returns (token: string, ghost tries: nat)
    ensures token !in tokens
    ensures forall c <- token :: TokenChar(c)
    ensures 1 <= tries <= |tokens| + 1 && token == Candidate(Base(name), tries)
    ensures forall k | 0 < k < tries :: Candidate(Base(name), k) in tokens
  {
    hide Itoa, Sanitized, TokenChar;
    var taken: set<string> := {};
    for i := 0 to |tokens|
      invariant taken == set t <- tokens[..i]
    {
      assert tokens[..i + 1] == tokens[..i] + [tokens[i]];
      taken := taken + {tokens[i]};
    }
    assert tokens[..|tokens|] == tokens;
    AtMostLength(tokens, taken);
    var sanitized := SanitizeTokenChars(name);
    var base := "profile_" + sanitized;
    CandidateChars(name, 1);
    if base !in taken {
      return base, 1;
    }
    var n := 2;
    while true
      invariant 2 <= n <= |tokens| + 1
      invariant forall k | 0 < k < n :: Candidate(base, k) in taken
      decreases |tokens| + 2 - n
    {
      var candidate := base + "_" + Itoa(n);
      CandidateChars(name, n);
      if candidate !in taken {
        return candidate, n;
      }
      n := n + 1;
      var tried := CandidatesInUse(base, n, taken);
      SubsetSize(tried, taken);
    }
  }
}
