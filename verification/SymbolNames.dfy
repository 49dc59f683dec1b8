/** The numbers of a grammar's symbols and their names. */
module SymbolNames {
  predicate IsWordChar(c: char) {
    'a' <= c <= 'z' || 'A' <= c <= 'Z' || c == '-' || '0' <= c <= '9'
  }

  predicate IsWord(s: string) {
    forall i :: 0 <= i < |s| ==> IsWordChar(s[i])
  }

  function Digit(d: nat): (c: char)
    requires d < 10
    ensures IsWordChar(c)
  {
    '0' + d as char
  }

  function Decimal(n: nat): (s: string)
    ensures |s| > 0 && IsWord(s)
  {
    if n < 10 then [Digit(n)] else Decimal(n / 10) + [Digit(n % 10)]
  }

  /** The number that digits write. */
  function Written(s: string): int {
    if s == "" then 0 else 10 * Written(s[..|s| - 1]) + (s[|s| - 1] as int - '0' as int)
  }

  lemma {:induction false} DecimalWritten(n: nat)
    ensures Written(Decimal(n)) == n && (n > 0 ==> Decimal(n)[0] != '0')
    ensures forall i :: 0 <= i < |Decimal(n)| ==> '0' <= Decimal(n)[i] <= '9'
  {
    var s := Decimal(n);
    assert s[|s| - 1] == Digit(n % 10);
    if n >= 10 {
      DecimalWritten(n / 10);
      assert s[..|s| - 1] == Decimal(n / 10);
    } else {
      assert s[..|s| - 1] == "";
    }
  }

  lemma {:induction false} DecimalInjective(m: nat, n: nat)
    requires Decimal(m) == Decimal(n)
    ensures m == n
    decreases m
  {
    var s := Decimal(m);
    assert s[|s| - 1] == Digit(m % 10) && s[|s| - 1] == Digit(n % 10);
    assert (m % 10) as char == (n % 10) as char by {
      assert '0' + (m % 10) as char == '0' + (n % 10) as char;
    }
    if m >= 10 && n >= 10 {
      assert s[..|s| - 1] == Decimal(m / 10) && s[..|s| - 1] == Decimal(n / 10);
      DecimalInjective(m / 10, n / 10);
    } else {
      assert |s| == 1;
    }
  }

  function Generated(base: string, id: nat): string {
    base + "_" + Decimal(id)
  }

  /** The underscore tells where the number starts. */
  lemma {:induction false} GeneratedInjective(a: string, m: nat, b: string, n: nat)
    requires IsWord(a) && IsWord(b) && Generated(a, m) == Generated(b, n)
    ensures a == b && m == n
  {
    var s := Generated(a, m);
    assert s[|a|] == '_' && s[|b|] == '_';
    assert forall i :: 0 <= i < |a| ==> s[i] == a[i] && IsWordChar(s[i]);
    assert forall i :: 0 <= i < |b| ==> s[i] == b[i] && IsWordChar(s[i]);
    assert |a| == |b|;
    assert a == s[..|a|] && b == s[..|b|];
    assert Decimal(m) == s[|a| + 1..] && Decimal(n) == s[|b| + 1..];
    DecimalInjective(m, n);
  }

  lemma {:induction false} GeneratedNoWord(a: string, m: nat)
    ensures !IsWord(Generated(a, m))
  {
    assert Generated(a, m)[|a|] == '_';
  }

  type Ids = map<string, nat>

  ghost predicate IsGenerated(name: string, id: nat) {
    exists base: string :: IsWord(base) && name == Generated(base, id)
  }

  /** The numbers are those from 0 on, each for one name; a made-up name carries its own. */
  ghost predicate Numbered(ids: Ids) {
    && (forall a :: a in ids ==> ids[a] < |ids|)
    && (forall a, b :: a in ids && b in ids && ids[a] == ids[b] ==> a == b)
    && (forall i: nat :: i < |ids| ==> HasNumber(ids, i))
    && (forall a :: a in ids ==> IsWord(a) || IsGenerated(a, ids[a]))
  }

  ghost predicate HasNumber(ids: Ids, i: nat) {
    exists a :: a in ids && ids[a] == i
  }

  /** A number of a name that was written, not made up. */
  ghost predicate WordNamed(ids: Ids, i: nat) {
    exists a :: a in ids && ids[a] == i && IsWord(a)
  }

  lemma {:induction false} AddName(ids: Ids, name: string)
    requires Numbered(ids) && name !in ids && (IsWord(name) || IsGenerated(name, |ids|))
    ensures |ids[name := |ids|]| == |ids| + 1 && Numbered(ids[name := |ids|])
    ensures forall i: nat :: i < |ids| ==> WordNamed(ids[name := |ids|], i) == WordNamed(ids, i)
    ensures WordNamed(ids[name := |ids|], |ids|) == IsWord(name)
  {
    hide IsWord, IsGenerated;
    var more := ids[name := |ids|];
    assert more.Keys == ids.Keys + {name};
    forall i: nat | i < |more| ensures HasNumber(more, i) {
      NumberKept(ids, name, i);
    }
    forall i: nat | i < |ids| ensures WordNamed(more, i) == WordNamed(ids, i) {
      WordKept(ids, name, i);
    }
    NewWord(ids, name);
    hide HasNumber, WordNamed;
  }

  lemma {:induction false} NumberKept(ids: Ids, name: string, i: nat)
    requires name !in ids && i <= |ids| && (i < |ids| ==> HasNumber(ids, i))
    ensures HasNumber(ids[name := |ids|], i)
  {
    var more := ids[name := |ids|];
    if i < |ids| {
      var a :| a in ids && ids[a] == i;
      assert a in more && more[a] == i;
    } else {
      assert name in more && more[name] == i;
    }
  }

  lemma {:induction false} WordKept(ids: Ids, name: string, i: nat)
    requires name !in ids && i < |ids|
    ensures WordNamed(ids[name := |ids|], i) == WordNamed(ids, i)
  {
    hide IsWord;
    var more := ids[name := |ids|];
    if WordNamed(ids, i) {
      var a :| a in ids && ids[a] == i && IsWord(a);
      assert a in more && more[a] == i;
    }
  }

  lemma {:induction false} NewWord(ids: Ids, name: string)
    requires name !in ids && forall a :: a in ids ==> ids[a] < |ids|
    ensures WordNamed(ids[name := |ids|], |ids|) == IsWord(name)
  {
    hide IsWord;
    var more := ids[name := |ids|];
    assert name in more && more[name] == |ids|;
  }

  /** A made-up name with the next number is new. */
  lemma {:induction false} NewGenerated(ids: Ids, base: string)
    requires Numbered(ids) && IsWord(base)
    ensures
      Generated(base, |ids|) !in ids && IsGenerated(Generated(base, |ids|), |ids|) && !IsWord(Generated(base, |ids|))
  {
    var name := Generated(base, |ids|);
    GeneratedNoWord(base, |ids|);
    if name in ids {
      var b: string :| IsWord(b) && name == Generated(b, ids[name]);
      GeneratedInjective(base, |ids|, b, ids[name]);
    }
  }
}
