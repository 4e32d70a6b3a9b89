/** The string operations that host names and mail domains go through, on ASCII text. */
module Text {

  function LowerChar(c: char): char {
    if 'A' <= c <= 'Z' then (c as int + 32) as char else c
  }

  function Lower(s: string): (r: string)
    ensures |r| == |s| && forall i :: 0 <= i < |s| ==> r[i] == LowerChar(s[i])
  {
    seq(|s|, i requires 0 <= i < |s| => LowerChar(s[i]))
  }

  const UPPERS: string := "ABCDEFGHIJKLMNOPQRSTUVWXYZ"
  const LOWERS: string := "abcdefghijklmnopqrstuvwxyz"

  /** Two forms of one letter. */
  predicate Cases(c: char, d: char, k: nat) {
    k < 26 && c in [UPPERS[k], LOWERS[k]] && d in [UPPERS[k], LOWERS[k]]
  }

  ghost predicate SameChar(c: char, d: char) {
    c == d || exists k: nat :: Cases(c, d, k)
  }

  /** The texts differ in the case of letters only. */
  ghost predicate SameButCase(a: string, b: string) {
    |a| == |b| && forall i :: 0 <= i < |a| ==> SameChar(a[i], b[i])
  }

  lemma Alphabet(k: nat)
    requires k < 26
    ensures UPPERS[k] as int == 'A' as int + k && LOWERS[k] as int == 'a' as int + k
  {
  }

  lemma UpperListed(c: char)
    ensures 'A' <= c <= 'Z' <==> c in UPPERS
  {
    if 'A' <= c <= 'Z' {
      var k := c as int - 'A' as int;
      Alphabet(k);
      assert UPPERS[k] == c;
    }
    if c in UPPERS {
      var k :| 0 <= k < 26 && UPPERS[k] == c;
      Alphabet(k);
    }
  }

  lemma CasesAgree(c: char, d: char, k: nat)
    requires Cases(c, d, k)
    ensures LowerChar(c) == LowerChar(d)
  {
    Alphabet(k);
  }

  lemma UpperHasLower(c: char)
    ensures SameChar(c, LowerChar(c)) && SameChar(LowerChar(c), c)
  {
    if 'A' <= c <= 'Z' {
      var k := c as int - 'A' as int;
      Alphabet(k);
      assert Cases(c, LowerChar(c), k) && Cases(LowerChar(c), c, k);
    }
  }

  lemma SameLowers(c: char, d: char)
    requires LowerChar(c) == LowerChar(d)
    ensures c == d || d == LowerChar(c) || c == LowerChar(d)
  {
  }

  lemma LowerCharExactly(c: char, d: char)
    ensures LowerChar(c) == LowerChar(d) <==> SameChar(c, d)
    ensures SameChar(c, LowerChar(c)) && LowerChar(c) !in UPPERS
  {
    UpperHasLower(c);
    UpperHasLower(d);
    UpperListed(LowerChar(c));
    if LowerChar(c) == LowerChar(d) {
      SameLowers(c, d);
    }
    if k: nat :| Cases(c, d, k) {
      CasesAgree(c, d, k);
    }
  }

  lemma LowerIsLower(s: string)
    requires forall c :: c in s ==> c !in UPPERS
    ensures Lower(s) == s
  {
    forall i | 0 <= i < |s|
      ensures Lower(s)[i] == s[i]
    {
      UpperListed(s[i]);
    }
  }

  /** Lowering identifies exactly the texts that differ in case only, and is one of them. */
  lemma LowerExactly(a: string, b: string)
    ensures Lower(a) == Lower(b) <==> SameButCase(a, b)
    ensures SameButCase(a, Lower(a)) && forall c :: c in Lower(a) ==> c !in UPPERS
  {
    forall i | 0 <= i < |a|
      ensures SameChar(a[i], Lower(a)[i]) && Lower(a)[i] !in UPPERS
      ensures i < |b| ==> (Lower(a)[i] == Lower(b)[i] <==> SameChar(a[i], b[i]))
    {
      LowerCharExactly(a[i], if i < |b| then b[i] else a[i]);
    }
    if Lower(a) == Lower(b) {
      assert forall i :: 0 <= i < |a| ==> Lower(a)[i] == Lower(b)[i];
    }
  }

  lemma LowerConcat(a: string, b: string)
    ensures Lower(a + b) == Lower(a) + Lower(b)
  {
  }

  lemma LowerKeepsOthers(s: string, c: char)
    requires c == ':' || c == '.'
    ensures c in Lower(s) <==> c in s
  {
    if c in s {
      var i :| 0 <= i < |s| && s[i] == c;
      assert Lower(s)[i] == c;
    }
  }

  lemma LowerTwice(s: string)
    ensures Lower(Lower(s)) == Lower(s)
  {
  }

  lemma LowerPrefix(s: string, n: nat)
    requires Lower(s) == s && n <= |s|
    ensures Lower(s[..n]) == s[..n]
  {
    assert forall i :: 0 <= i < n ==> s[i] == LowerChar(s[i]);
  }

  predicate IsSpace(c: char) {
    c == ' ' || c == '\t' || c == '\n' || c == '\U{B}' || c == '\U{C}' || c == '\r'
  }

  function TrimLeft(s: string): string {
    if s != "" && IsSpace(s[0]) then TrimLeft(s[1..]) else s
  }

  function TrimRight(s: string): string {
    if s != "" && IsSpace(s[|s| - 1]) then TrimRight(s[..|s| - 1]) else s
  }

  function Trim(s: string): string {
    TrimRight(TrimLeft(s))
  }

  predicate Trimmed(s: string) {
    s != "" ==> !IsSpace(s[0]) && !IsSpace(s[|s| - 1])
  }

  lemma {:induction false} TrimLeftTrims(s: string)
    ensures TrimLeft(s) != "" ==> !IsSpace(TrimLeft(s)[0])
  {
    if s == "" || !IsSpace(s[0]) {
    } else {
      TrimLeftTrims(s[1..]);
    }
  }

  lemma {:induction false} TrimRightTrims(s: string)
    ensures TrimRight(s) != "" ==> s != "" && TrimRight(s)[0] == s[0] && !IsSpace(TrimRight(s)[|TrimRight(s)| - 1])
  {
    if s == "" || !IsSpace(s[|s| - 1]) {
    } else {
      TrimRightTrims(s[..|s| - 1]);
    }
  }

  lemma TrimTrims(s: string)
    ensures Trimmed(Trim(s))
  {
    TrimLeftTrims(s);
    TrimRightTrims(TrimLeft(s));
  }

  const SPACES: string := " \t\n\U{B}\U{C}\r"

  predicate Blank(s: string) {
    forall c :: c in s ==> c in SPACES
  }

  lemma {:induction false} TrimLeftCuts(s: string) returns (a: string)
    ensures s == a + TrimLeft(s) && Blank(a)
  {
    if s == "" || !IsSpace(s[0]) {
      a := "";
    } else {
      a := TrimLeftCuts(s[1..]);
      a := [s[0]] + a;
      assert s == [s[0]] + s[1..];
      SpacesListed(s[0]);
    }
  }

  lemma SpacesListed(c: char)
    ensures IsSpace(c) <==> c in SPACES
  {
    assert SPACES[0] == ' ' && SPACES[1] == '\t' && SPACES[2] == '\n' && SPACES[3] == '\U{B}' && SPACES[4] == '\U{C}' && SPACES[5] == '\r';
  }

  lemma {:induction false} TrimRightCuts(s: string) returns (b: string)
    ensures s == TrimRight(s) + b && Blank(b)
  {
    if s == "" || !IsSpace(s[|s| - 1]) {
      b := "";
    } else {
      b := TrimRightCuts(s[..|s| - 1]);
      b := b + [s[|s| - 1]];
      assert s == s[..|s| - 1] + [s[|s| - 1]];
      SpacesListed(s[|s| - 1]);
    }
  }

  /** Trimming cuts off spaces at both ends, all of them and nothing else. */
  lemma TrimExactly(s: string) returns (a: string, b: string)
    ensures s == a + Trim(s) + b && Blank(a) && Blank(b)
    ensures Trim(s) != "" ==> Trim(s)[0] !in SPACES && Trim(s)[|Trim(s)| - 1] !in SPACES
  {
    a := TrimLeftCuts(s);
    b := TrimRightCuts(TrimLeft(s));
    assert s == a + (Trim(s) + b);
    TrimTrims(s);
    if Trim(s) != "" {
      SpacesListed(Trim(s)[0]);
      SpacesListed(Trim(s)[|Trim(s)| - 1]);
    }
  }

  /** Lowering a trimmed text leaves it trimmed, and both are done only once. */
  lemma LowerKeepsTrimmed(s: string)
    requires Trimmed(s)
    ensures Trim(Lower(s)) == Lower(s) && Lower(Lower(s)) == Lower(s)
  {
  }
}
