/** Character classes and the substring test that the mod manager relies on. */
module Text {

  /** Python's `str.isspace()`: the characters that `str.strip()` removes. */
  predicate IsSpace(c: char) {
    var n := c as int;
    (9 <= n <= 13) || (0x1C <= n <= 0x20) || n == 0x85 || n == 0xA0 || n == 0x1680
    || (0x2000 <= n <= 0x200A) || n == 0x2028 || n == 0x2029 || n == 0x202F || n == 0x205F || n == 0x3000
  }

  predicate StartsWith(s: string, prefix: string) {
    |prefix| <= |s| && s[..|prefix|] == prefix
  }

  /** `sub` occurs in `s` at some position `i` or later. */
  predicate OccursFrom(s: string, sub: string, i: nat)
    decreases |s| - i
  {
    i + |sub| <= |s| && (s[i..i + |sub|] == sub || OccursFrom(s, sub, i + 1))
  }

  /** Python's `sub in s`: `sub` occurs somewhere in `s` (the empty string occurs everywhere). */
  predicate Contains(s: string, sub: string) {
    OccursFrom(s, sub, 0)
  }

  /** An occurrence at a known position is found by `Contains`. */
  lemma ContainsAt(s: string, sub: string, i: nat)
    requires i + |sub| <= |s| && s[i..i + |sub|] == sub
    ensures Contains(s, sub)
  {
    OccursFromAt(s, sub, 0, i);
  }

  lemma {:induction false} OccursFromAt(s: string, sub: string, from: nat, i: nat)
    requires from <= i && i + |sub| <= |s| && s[i..i + |sub|] == sub
    ensures OccursFrom(s, sub, from)
    decreases i - from
  {
    if from < i {
      OccursFromAt(s, sub, from + 1, i);
    }
  }

  /** `Contains` only holds when there is an occurrence at some position. */
  lemma ContainsWitness(s: string, sub: string) returns (i: nat)
    requires Contains(s, sub)
    ensures i + |sub| <= |s| && s[i..i + |sub|] == sub
  {
    i := OccursFromWitness(s, sub, 0);
  }

  lemma {:induction false} OccursFromWitness(s: string, sub: string, from: nat) returns (i: nat)
    requires OccursFrom(s, sub, from)
    ensures from <= i && i + |sub| <= |s| && s[i..i + |sub|] == sub
    decreases |s| - from
  {
    if s[from..from + |sub|] == sub {
      i := from;
    } else {
      i := OccursFromWitness(s, sub, from + 1);
    }
  }
}
