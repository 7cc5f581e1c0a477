/** Which configuration keys hold secrets. Characters are treated as Go's unicode tables treat
    them as far as the tokens, all lower-case ASCII, can notice. */
module ConfigKeys {
  import opened Prelude

  const TOKENS: seq<string> := ["secret", "private_key", "public_key", "api_key", "token", "password"]

  /** unicode.IsSpace. */
  predicate IsSpace(c: char) {
    c in {' ', '\t', '\n', '\r', '\U{0B}', '\U{0C}', '\U{85}', '\U{A0}', '\U{1680}', '\U{2028}', '\U{2029}',
          '\U{202F}', '\U{205F}', '\U{3000}'}
    || '\U{2000}' <= c <= '\U{200A}'
  }

  /** unicode.ToLower where the result is an ASCII letter; besides A to Z that is the dotted capital I
      and the Kelvin sign. Other characters are left alone: their lower case is not ASCII. */
  function LowerChar(c: char): char {
    if 'A' <= c <= 'Z' then c + 32 as char
    else if c == '\U{130}' then 'i'
    else if c == '\U{212A}' then 'k'
    else c
  }

  function ToLower(s: string): (r: string)
    ensures |r| == |s| && forall i :: 0 <= i < |s| ==> r[i] == LowerChar(s[i])
  {
    seq(|s|, i requires 0 <= i < |s| => LowerChar(s[i]))
  }

  function TrimLeft(s: string): (r: string)
    ensures |r| <= |s| && r == s[|s| - |r|..]
    ensures forall i :: 0 <= i < |s| - |r| ==> IsSpace(s[i])
  {
    if s != "" && IsSpace(s[0]) then TrimLeft(s[1..]) else s
  }

  function TrimRight(s: string): (r: string)
    ensures |r| <= |s| && r == s[..|r|]
    ensures forall i :: |r| <= i < |s| ==> IsSpace(s[i])
  {
    if s != "" && IsSpace(s[|s| - 1]) then TrimRight(s[..|s| - 1]) else s
  }

  function TrimSpace(s: string): string {
    TrimRight(TrimLeft(s))
  }

  predicate Sensitive(key: string) {
    exists i :: 0 <= i < |TOKENS| && Contains(ToLower(TrimSpace(key)), TOKENS[i])
  }

  method IsSensitiveConfigKey(key: string) returns (sensitive: bool)
    ensures sensitive == Sensitive(key)
  {
    hide TrimSpace, ToLower, Contains, TOKENS;
    var lowerKey := ToLower(TrimSpace(key));
    for i := 0 to |TOKENS|
      invariant forall k :: 0 <= k < i ==> !Contains(lowerKey, TOKENS[k])
    {
      if Contains(lowerKey, TOKENS[i]) {
        return true;
      }
    }
    return false;
  }

  // ----- sensitivity depends on nothing but a token occurring in the key -----

  predicate NoSpace(token: string) {
    token != "" && forall i :: 0 <= i < |token| ==> !IsSpace(token[i])
  }

  lemma {:induction false} LowerSpace(c: char)
    ensures IsSpace(LowerChar(c)) <==> IsSpace(c)
  {
  }

  lemma {:induction false} ShiftOccurrence(s: string, lo: nat, hi: nat, token: string, i: nat)
    requires lo <= hi <= |s| && i + |token| <= hi - lo
    ensures OccursAt(ToLower(s[lo..hi]), token, i) <==> OccursAt(ToLower(s), token, lo + i)
  {
    hide LowerChar;
    var within, whole := ToLower(s[lo..hi]), ToLower(s);
    assert forall k :: 0 <= k < hi - lo ==> within[k] == whole[lo + k];
    assert within[i..i + |token|] == whole[lo + i..lo + i + |token|];
  }

  /** A token cannot reach into the white space around s[lo..hi]. */
  lemma {:induction false} TokenStaysInside(s: string, lo: nat, hi: nat, token: string, i: nat)
    requires lo <= hi <= |s| && NoSpace(token)
    requires forall k :: 0 <= k < lo || hi <= k < |s| ==> IsSpace(s[k])
    requires i + |token| <= |s| && OccursAt(ToLower(s), token, i)
    ensures lo <= i && i + |token| <= hi
  {
    var last := i + |token| - 1;
    var found := ToLower(s)[i..i + |token|];
    assert found[0] == LowerChar(s[i]) && found[|token| - 1] == LowerChar(s[last]);
    LowerSpace(s[i]);
    LowerSpace(s[last]);
    hide IsSpace, LowerChar;
    assert !IsSpace(token[0]) && !IsSpace(token[|token| - 1]);
    assert !IsSpace(s[i]) && !IsSpace(s[last]);
  }

  lemma {:induction false} TrimmingKeepsTokens(s: string, lo: nat, hi: nat, token: string)
    requires lo <= hi <= |s| && NoSpace(token)
    requires forall k :: 0 <= k < lo || hi <= k < |s| ==> IsSpace(s[k])
    ensures Contains(ToLower(s[lo..hi]), token) <==> Contains(ToLower(s), token)
  {
    hide IsSpace, LowerChar;
    if Contains(ToLower(s), token) {
      var i :| 0 <= i <= |s| - |token| && OccursAt(ToLower(s), token, i);
      TokenStaysInside(s, lo, hi, token, i);
      ShiftOccurrence(s, lo, hi, token, i - lo);
    }
    if Contains(ToLower(s[lo..hi]), token) {
      var i :| 0 <= i <= hi - lo - |token| && OccursAt(ToLower(s[lo..hi]), token, i);
      ShiftOccurrence(s, lo, hi, token, i);
    }
  }

  lemma {:induction false} TrimIsASlice(s: string) returns (lo: nat, hi: nat)
    ensures lo <= hi <= |s| && TrimSpace(s) == s[lo..hi]
    ensures forall k :: 0 <= k < lo || hi <= k < |s| ==> IsSpace(s[k])
  {
    hide IsSpace, TrimLeft, TrimRight;
    var left := TrimLeft(s);
    lo := |s| - |left|;
    hi := lo + |TrimRight(left)|;
    assert TrimSpace(s) == left[..hi - lo] == s[lo..hi];
    forall k | hi <= k < |s|
      ensures IsSpace(s[k])
    {
      assert left[k - lo] == s[k];
    }
  }

  lemma {:induction false} TokensHaveNoSpace(i: nat)
    requires i < |TOKENS|
    ensures NoSpace(TOKENS[i])
  {
  }

  lemma {:induction false} SensitiveIgnoresTrimming(key: string)
    ensures Sensitive(key) <==> exists i :: 0 <= i < |TOKENS| && Contains(ToLower(key), TOKENS[i])
  {
    var lo, hi := TrimIsASlice(key);
    forall i | 0 <= i < |TOKENS|
      ensures Contains(ToLower(TrimSpace(key)), TOKENS[i]) <==> Contains(ToLower(key), TOKENS[i])
    {
      TokensHaveNoSpace(i);
      TrimmingKeepsTokens(key, lo, hi, TOKENS[i]);
    }
  }

  /** The key is `before` + `part` + `after`, and `part` lowers to a token. */
  ghost predicate HoldsToken(key: string, before: string, part: string, after: string) {
    key == before + part + after && ToLower(part) in TOKENS
  }

  lemma {:induction false} SensitiveMeansTokenLowered(key: string)
    ensures Sensitive(key) <==> exists before, part, after :: HoldsToken(key, before, part, after)
  {
    hide IsSpace, LowerChar, TOKENS, TrimSpace;
    SensitiveIgnoresTrimming(key);
    if Sensitive(key) {
      var i :| 0 <= i < |TOKENS| && Contains(ToLower(key), TOKENS[i]);
      var token := TOKENS[i];
      assert token in TOKENS;
      var p :| 0 <= p <= |key| - |token| && OccursAt(ToLower(key), token, p);
      ShiftOccurrence(key, p, p + |token|, token, 0);
      assert ToLower(key[p..p + |token|]) == token;
      assert HoldsToken(key, key[..p], key[p..p + |token|], key[p + |token|..]);
    }
    forall before, part, after | HoldsToken(key, before, part, after)
      ensures Sensitive(key)
    {
      var i :| 0 <= i < |TOKENS| && TOKENS[i] == ToLower(part);
      var p := |before|;
      assert key[p..p + |part|] == part;
      assert OccursAt(ToLower(part), ToLower(part), 0);
      ShiftOccurrence(key, p, p + |part|, ToLower(part), 0);
      assert Contains(ToLower(key), TOKENS[i]);
    }
  }

  /** One of the characters whose lower case is the letter, or the underscore, t. */
  ghost predicate SameLetter(c: char, t: char) {
    || c == t
    || ('a' <= t <= 'z' && c as int == t as int - 32)
    || (t == 'i' && c == '\U{130}')
    || (t == 'k' && c == '\U{212A}')
  }

  ghost predicate InSomeCase(part: string, token: string) {
    |part| == |token| && forall i :: 0 <= i < |part| ==> SameLetter(part[i], token[i])
  }

  ghost predicate IsTokenInSomeCase(part: string) {
    InSomeCase(part, "secret") || InSomeCase(part, "private_key") || InSomeCase(part, "public_key")
    || InSomeCase(part, "api_key") || InSomeCase(part, "token") || InSomeCase(part, "password")
  }

  ghost predicate Splits(key: string, before: string, part: string, after: string) {
    key == before + part + after
  }

  ghost predicate Lower(token: string) {
    forall i :: 0 <= i < |token| ==> 'a' <= token[i] <= 'z' || token[i] == '_'
  }

  lemma {:induction false} LowersTo(part: string, token: string)
    requires Lower(token)
    ensures ToLower(part) == token <==> InSomeCase(part, token)
  {
    if |part| == |token| {
      forall i | 0 <= i < |part|
        ensures LowerChar(part[i]) == token[i] <==> SameLetter(part[i], token[i])
      {
      }
      if InSomeCase(part, token) {
        hide LowerChar;
        assert forall i :: 0 <= i < |part| ==> ToLower(part)[i] == token[i];
      }
    }
  }

  lemma {:induction false} TokensAreLower()
    ensures Lower("secret") && Lower("private_key") && Lower("public_key")
    ensures Lower("api_key") && Lower("token") && Lower("password")
  {
  }

  lemma {:induction false} TokenInSomeCase(part: string)
    ensures ToLower(part) in TOKENS <==> IsTokenInSomeCase(part)
  {
    TokensAreLower();
    hide Lower, InSomeCase, ToLower;
    LowersTo(part, "secret");
    LowersTo(part, "private_key");
    LowersTo(part, "public_key");
    LowersTo(part, "api_key");
    LowersTo(part, "token");
    LowersTo(part, "password");
  }

  /** A key is sensitive exactly when one of the six tokens occurs in it, whatever the case of its
      letters, the characters around it, and the white space at its ends. */
  lemma {:induction false} SensitiveMeansTokenInside(key: string)
    ensures Sensitive(key) <==>
            exists before, part, after :: Splits(key, before, part, after) && IsTokenInSomeCase(part)
  {
    SensitiveMeansTokenLowered(key);
    hide Sensitive, IsTokenInSomeCase, ToLower, TOKENS;
    forall before, part, after
      ensures HoldsToken(key, before, part, after) <==> Splits(key, before, part, after) && IsTokenInSomeCase(part)
    {
      TokenInSomeCase(part);
    }
  }
}
