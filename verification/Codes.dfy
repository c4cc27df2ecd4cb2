/** Texts over a code that writes each character as bytes, none the start of another's. */
module Codes {
  type Byte = b: int | 0 <= b < 256

  type Code = nat -> seq<Byte>

  /** A NUL-terminated string: some byte at or after p is NUL. */
  ghost predicate Terminated(s: seq<Byte>, p: nat) {
    exists z | p <= z < |s| :: s[z] == 0
  }

  /** The bytes e stand at p. */
  predicate At(s: seq<Byte>, p: nat, e: seq<Byte>) {
    p + |e| <= |s| && s[p..p + |e|] == e
  }

  /** Characters have bytes, none NUL, and no two characters stand at one place. */
  ghost predicate Coding(code: Code, char?: nat -> bool) {
    && (forall c: nat | char?(c) :: code(c) != [] && 0 !in code(c))
    && (forall c: nat, d: nat, s: seq<Byte>, p: nat | char?(c) && char?(d) && At(s, p, code(c)) && At(s, p, code(d)) ::
      c == d)
  }

  predicate All(cps: seq<nat>, p: nat -> bool) {
    forall i | 0 <= i < |cps| :: p(cps[i])
  }

  function Concat(cps: seq<nat>, code: Code): seq<Byte> {
    if cps == [] then [] else code(cps[0]) + Concat(cps[1..], code)
  }

  lemma {:induction false} ConcatLast(cps: seq<nat>, c: nat, code: Code)
    ensures Concat(cps + [c], code) == Concat(cps, code) + code(c)
  {
    if cps == [] {
      assert Concat([c], code) == code(c) + Concat([c][1..], code);
    } else {
      assert (cps + [c])[1..] == cps[1..] + [c];
      ConcatLast(cps[1..], c, code);
    }
  }

  /** The string's bytes from p, up to its NUL. */
  function Text(s: seq<Byte>, p: nat): (t: seq<Byte>)
    requires p < |s| && Terminated(s, p)
    ensures p + |t| < |s| && t == s[p..p + |t|] && s[p + |t|] == 0 && 0 !in t
    decreases |s| - p
  {
    if s[p] == 0 then [] else [s[p]] + Text(s, p + 1)
  }

  lemma {:induction false} TextAfter(s: seq<Byte>, p: nat, e: seq<Byte>)
    requires p < |s| && Terminated(s, p) && At(s, p, e) && 0 !in e
    ensures p + |e| < |s| && Terminated(s, p + |e|) && Text(s, p) == e + Text(s, p + |e|)
    decreases |e|
  {
    if e != [] {
      assert s[p] == s[p..p + |e|][0] == e[0];
      assert s[p + 1..p + |e|] == s[p..p + |e|][1..];
      TextAfter(s, p + 1, e[1..]);
      Join3([e[0]], e[1..], Text(s, p + |e|));
      assert e == [e[0]] + e[1..];
    }
  }

  lemma Join3(a: seq<Byte>, b: seq<Byte>, c: seq<Byte>)
    ensures a + (b + c) == (a + b) + c
  {
  }

  lemma {:induction false} TextIs(s: seq<Byte>, p: nat, t: seq<Byte>)
    requires p + |t| < |s| && At(s, p, t) && 0 !in t && s[p + |t|] == 0
    ensures Terminated(s, p) && Text(s, p) == t
    decreases |t|
  {
    if t != [] {
      assert s[p] == s[p..p + |t|][0] == t[0];
      assert s[p + 1..p + |t|] == s[p..p + |t|][1..];
      TextIs(s, p + 1, t[1..]);
    }
  }

  /** The characters of the text at p. */
  ghost predicate Spells(s: seq<Byte>, p: nat, cps: seq<nat>, code: Code, char?: nat -> bool)
    requires p < |s| && Terminated(s, p)
  {
    All(cps, char?) && Text(s, p) == Concat(cps, code)
  }

  /** A text starts with its first character. */
  lemma SpellsStart(s: seq<Byte>, p: nat, cps: seq<nat>, code: Code, char?: nat -> bool)
    requires p < |s| && Terminated(s, p) && Coding(code, char?) && Spells(s, p, cps, code, char?)
    ensures cps == [] <==> s[p] == 0
    ensures cps != [] ==> char?(cps[0]) && At(s, p, code(cps[0]))
  {
    if cps != [] {
      var e, t := code(cps[0]), Text(s, p);
      assert t[..|e|] == e;
      assert s[p..p + |t|][..|e|] == s[p..p + |e|];
    }
  }

  /** With a character at p, what the text spells is that character and what its rest spells. */
  lemma SpellsRest(s: seq<Byte>, p: nat, c: nat, q: nat, cps: seq<nat>, code: Code, char?: nat -> bool)
    requires p < |s| && Terminated(s, p) && Coding(code, char?)
    requires char?(c) && At(s, p, code(c)) && q == p + |code(c)| && Spells(s, p, cps, code, char?)
    ensures q < |s| && Terminated(s, q) && cps != [] && cps[0] == c && Spells(s, q, cps[1..], code, char?)
  {
    TextAfter(s, p, code(c));
    assert s[p] == s[p..p + |code(c)|][0] != 0;
    SpellsStart(s, p, cps, code, char?);
    RestOf(code(c), Text(s, q));
    RestOf(code(c), Concat(cps[1..], code));
  }

  lemma RestOf(a: seq<Byte>, b: seq<Byte>)
    ensures (a + b)[|a|..] == b
  {
  }

  /** A text spells one list of characters at most. */
  lemma {:induction false} SpellsUnique(s: seq<Byte>, p: nat, a: seq<nat>, b: seq<nat>, code: Code, char?: nat -> bool)
    requires p < |s| && Terminated(s, p) && Coding(code, char?)
    requires Spells(s, p, a, code, char?) && Spells(s, p, b, code, char?)
    ensures a == b
    decreases |a|
  {
    SpellsStart(s, p, a, code, char?);
    SpellsStart(s, p, b, code, char?);
    if a != [] {
      var c, q := a[0], p + |code(a[0])|;
      SpellsRest(s, p, c, q, a, code, char?);
      SpellsRest(s, p, c, q, b, code, char?);
      SpellsUnique(s, q, a[1..], b[1..], code, char?);
      assert a == [a[0]] + a[1..] && b == [b[0]] + b[1..];
    }
  }

  ghost predicate Spellable(s: seq<Byte>, p: nat, code: Code, char?: nat -> bool)
    requires p < |s| && Terminated(s, p)
  {
    exists cps :: Spells(s, p, cps, code, char?)
  }

  lemma NoneStarts(s: seq<Byte>, p: nat, code: Code, char?: nat -> bool)
    requires p < |s| && Terminated(s, p) && s[p] != 0 && Coding(code, char?)
    requires forall c: nat | char?(c) :: !At(s, p, code(c))
    ensures !Spellable(s, p, code, char?)
  {
    forall cps | Spells(s, p, cps, code, char?)
      ensures false
    {
      SpellsStart(s, p, cps, code, char?);
    }
  }

  /** A text read up to p, that holds the characters read there. */
  ghost predicate Read(s: seq<Byte>, p: nat, cps: seq<nat>, code: Code, char?: nat -> bool) {
    && p < |s| && Terminated(s, p) && Terminated(s, 0)
    && All(cps, char?) && Text(s, 0) == Concat(cps, code) + Text(s, p)
  }

  lemma AllLast(cps: seq<nat>, c: nat, p: nat -> bool)
    requires All(cps, p) && p(c)
    ensures All(cps + [c], p)
  {
  }

  lemma ReadOne(s: seq<Byte>, p: nat, cps: seq<nat>, c: nat, q: nat, code: Code, char?: nat -> bool)
    requires Coding(code, char?) && Read(s, p, cps, code, char?)
    requires char?(c) && At(s, p, code(c)) && q == p + |code(c)|
    ensures Read(s, q, cps + [c], code, char?)
  {
    TextAfter(s, p, code(c));
    ConcatLast(cps, c, code);
    Join3(Concat(cps, code), code(c), Text(s, q));
    AllLast(cps, c, char?);
  }

  lemma ReadAll(s: seq<Byte>, p: nat, cps: seq<nat>, code: Code, char?: nat -> bool)
    requires Read(s, p, cps, code, char?) && s[p] == 0
    ensures Spells(s, 0, cps, code, char?)
  {
    assert Concat(cps, code) + [] == Concat(cps, code);
  }

  lemma {:induction false} ConcatNoNul(cps: seq<nat>, code: Code, char?: nat -> bool)
    requires Coding(code, char?) && All(cps, char?)
    ensures 0 !in Concat(cps, code)
  {
    if cps != [] {
      ConcatNoNul(cps[1..], code, char?);
    }
  }

  /** What writes a list of characters, and a NUL after it, spells it. */
  lemma WrittenSpells(cps: seq<nat>, rest: seq<Byte>, code: Code, char?: nat -> bool)
    requires Coding(code, char?) && All(cps, char?)
    ensures var s := Concat(cps, code) + [0] + rest; Terminated(s, 0) && Spells(s, 0, cps, code, char?)
  {
    var e := Concat(cps, code);
    ConcatNoNul(cps, code, char?);
    TextIs(e + [0] + rest, 0, e);
  }

  /** Whatever the whole text spells starts with the characters read, and its rest is spelt from p. */
  ghost predicate Forced(s: seq<Byte>, p: nat, read: seq<nat>, code: Code, char?: nat -> bool)
    requires p < |s| && Terminated(s, p) && Terminated(s, 0)
  {
    forall cps | Spells(s, 0, cps, code, char?) :: read <= cps && Spells(s, p, cps[|read|..], code, char?)
  }

  lemma ForcedOne(s: seq<Byte>, p: nat, read: seq<nat>, c: nat, q: nat, code: Code, char?: nat -> bool)
    requires Coding(code, char?) && Read(s, p, read, code, char?) && Forced(s, p, read, code, char?)
    requires char?(c) && At(s, p, code(c)) && q == p + |code(c)|
    ensures q < |s| && Terminated(s, q) && Forced(s, q, read + [c], code, char?)
  {
    TextAfter(s, p, code(c));
    forall cps | Spells(s, 0, cps, code, char?)
      ensures read + [c] <= cps && Spells(s, q, cps[|read + [c]|..], code, char?)
    {
      SpellsRest(s, p, c, q, cps[|read|..], code, char?);
      assert cps[|read|..][1..] == cps[|read + [c]|..];
    }
  }
}
