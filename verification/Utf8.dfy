/** Reading typed text, one UTF-8 character at a time (tools/keyboard/keyboard.c: decode, do_text). */
module Utf8 {
  import opened Codes

  /** A character's number, as section 3 of RFC 3629 lets one be encoded: no surrogate. */
  predicate Scalar(cp: int) {
    0 <= cp < 0xD800 || 0xE000 <= cp <= 0x10FFFF
  }

  /** The encoding of section 3 of RFC 3629. */
  function Encode(cp: int): (s: seq<Byte>)
    requires Scalar(cp)
    ensures 1 <= |s| <= 4
    ensures cp > 0 ==> forall i | 0 <= i < |s| :: s[i] != 0
  {
    if cp < 0x80 then [cp]
    else if cp < 0x800 then [0xC0 + cp / 0x40, 0x80 + cp % 0x40]
    else if cp < 0x1_0000 then [0xE0 + cp / 0x1000, 0x80 + cp / 0x40 % 0x40, 0x80 + cp % 0x40]
    else [0xF0 + cp / 0x4_0000, 0x80 + cp / 0x1000 % 0x40, 0x80 + cp / 0x40 % 0x40, 0x80 + cp % 0x40]
  }

  /** The encoding of cp stands at p. */
  ghost predicate EncodedAt(s: seq<Byte>, p: nat, cp: int) {
    Scalar(cp) && cp > 0 && At(s, p, Encode(cp))
  }

  /** The number a lead byte and the continuation bytes after it make. */
  function Assemble(s: seq<Byte>, p: nat, lead: nat, n: nat): nat
    requires p + n < |s|
  {
    if n == 0 then lead else Assemble(s, p, lead, n - 1) * 0x40 + s[p + n] % 0x40
  }

  /** The n bytes after p are continuation bytes. */
  predicate Continuations(s: seq<Byte>, p: nat, n: nat)
    requires p + n < |s|
  {
    n == 0 || (Continuations(s, p, n - 1) && s[p + n] / 0x40 == 2)
  }

  /** How long a character with this lead byte is; 0 for a byte that leads none. */
  function Length(b: Byte): nat {
    if b == 0 then 0 else if b < 0x80 then 1 else if 0xC2 <= b <= 0xDF then 2
    else if b / 0x10 == 14 then 3 else if 0xF0 <= b <= 0xF4 then 4 else 0
  }

  function LeadBits(b: Byte): nat {
    if b < 0x80 then b else if b <= 0xDF then b % 0x20 else if b / 0x10 == 14 then b % 0x10 else b % 0x08
  }

  function Least(n: nat): nat {
    if n <= 1 then 0 else if n == 2 then 0x80 else if n == 3 then 0x800 else 0x1_0000
  }

  /** The continuation byte of six bits, and the six bits of a continuation byte. */
  function Tail(v: nat): (b: Byte)
    ensures b / 0x40 == 2 && b % 0x40 == v % 0x40
  {
    0x80 + v % 0x40
  }

  lemma TailBack(b: Byte, high: nat)
    requires b / 0x40 == 2
    ensures Tail(high * 0x40 + b % 0x40) == b && (high * 0x40 + b % 0x40) / 0x40 == high
  {
  }

  lemma EncodeByTails(c: int)
    requires Scalar(c)
    ensures c < 0x80 ==> Encode(c) == [c]
    ensures 0x80 <= c < 0x800 ==> Encode(c) == [0xC0 + c / 0x40, Tail(c)]
    ensures 0x800 <= c < 0x1_0000 ==> Encode(c) == [0xE0 + c / 0x40 / 0x40, Tail(c / 0x40), Tail(c)]
    ensures 0x1_0000 <= c ==>
      Encode(c) == [0xF0 + c / 0x40 / 0x40 / 0x40, Tail(c / 0x40 / 0x40), Tail(c / 0x40), Tail(c)]
  {
  }

  /** The number that one byte, and those after it, add to. */
  lemma Assemble4(s: seq<Byte>, p: nat, lead: nat)
    ensures p < |s| ==> Assemble(s, p, lead, 0) == lead && Continuations(s, p, 0)
    ensures p + 1 < |s| ==>
      Assemble(s, p, lead, 1) == lead * 0x40 + s[p + 1] % 0x40 && Continuations(s, p, 1) == (s[p + 1] / 0x40 == 2)
    ensures p + 2 < |s| ==> Assemble(s, p, lead, 2) == Assemble(s, p, lead, 1) * 0x40 + s[p + 2] % 0x40
                            && Continuations(s, p, 2) == (Continuations(s, p, 1) && s[p + 2] / 0x40 == 2)
    ensures p + 3 < |s| ==> Assemble(s, p, lead, 3) == Assemble(s, p, lead, 2) * 0x40 + s[p + 3] % 0x40
                            && Continuations(s, p, 3) == (Continuations(s, p, 2) && s[p + 3] / 0x40 == 2)
  {
  }

  /** The lead byte over the high bits, by length. */
  function Lead(n: nat, high: nat): int {
    if n == 2 then 0xC0 + high else if n == 3 then 0xE0 + high else 0xF0 + high
  }

  /** The high bits of a character, those its lead byte carries. */
  function High(n: nat, c: nat): nat {
    if n == 2 then c / 0x40 else if n == 3 then c / 0x40 / 0x40 else c / 0x40 / 0x40 / 0x40
  }

  lemma LeadBack(n: nat, c: nat)
    requires 2 <= n <= 4 && Scalar(c) && Least(n) <= c && (n < 4 ==> c < Least(n + 1))
    ensures 0 <= Lead(n, High(n, c)) < 256
    ensures Length(Lead(n, High(n, c))) == n && LeadBits(Lead(n, High(n, c))) == High(n, c)
  {
  }

  lemma LeadForward(b: Byte)
    requires Length(b) >= 2
    ensures Lead(Length(b), LeadBits(b)) == b
  {
  }

  /** The bytes an encoding is made of. */
  lemma EncodedShape(s: seq<Byte>, p: nat, c: int)
    requires EncodedAt(s, p, c)
    ensures var n := |Encode(c)|;
      && Length(s[p]) == n && Continuations(s, p, n - 1) && Assemble(s, p, LeadBits(s[p]), n - 1) == c && c >= Least(n)
  {
    var e := Encode(c);
    var n := |e|;
    EncodeByTails(c);
    assert forall i | 0 <= i < n :: s[p..p + n][i] == e[i];
    assert s[p] == e[0];
    if n >= 2 {
      LeadBack(n, c);
      assert s[p] == Lead(n, High(n, c));
      TailsAssemble(s, p, c, n);
    }
  }

  /** The tails of a character after its high bits make it up again. */
  lemma TailsAssemble(s: seq<Byte>, p: nat, c: nat, n: nat)
    requires 2 <= n <= 4 && p + n <= |s|
    requires s[p + n - 1] == Tail(c) && (n >= 3 ==> s[p + n - 2] == Tail(c / 0x40))
      && (n == 4 ==> s[p + n - 3] == Tail(c / 0x40 / 0x40))
    ensures Continuations(s, p, n - 1) && Assemble(s, p, High(n, c), n - 1) == c
  {
    Assemble4(s, p, High(n, c));
    var d := c / 0x40;
    assert c == d * 0x40 + c % 0x40;
    if n >= 3 {
      assert d == d / 0x40 * 0x40 + d % 0x40;
    }
  }

  /** Bytes of that shape are an encoding, when the number they make is not too small for them, too
      large or a surrogate. */
  lemma ShapeEncoded(s: seq<Byte>, p: nat, n: nat, c: int)
    requires 1 <= n <= 4 && p + n <= |s| && Length(s[p]) == n && Continuations(s, p, n - 1)
    requires c == Assemble(s, p, LeadBits(s[p]), n - 1) && c >= Least(n) && Scalar(c)
    ensures EncodedAt(s, p, c) && |Encode(c)| == n
  {
    var b := s[p];
    EncodeByTails(c);
    if n == 1 {
      assert s[p..p + 1] == [b];
    } else {
      TailsOf(s, p, n, LeadBits(b));
      LeadForward(b);
      HighBound(n, LeadBits(b), c);
      BytesAt(s, p, n);
    }
  }

  lemma BytesAt(s: seq<Byte>, p: nat, n: nat)
    requires 2 <= n <= 4 && p + n <= |s|
    ensures s[p..p + n] == if n == 2 then [s[p], s[p + 1]]
      else if n == 3 then [s[p], s[p + 1], s[p + 2]] else [s[p], s[p + 1], s[p + 2], s[p + 3]]
  {
  }

  lemma HighBound(n: nat, high: nat, c: nat)
    requires 2 <= n <= 4 && high == High(n, c)
      && (if n == 2 then high < 0x20 else if n == 3 then high < 0x10 else high < 0x08)
    ensures n < 4 ==> c < Least(n + 1)
  {
  }

  /** Continuation bytes are the tails of the number they end, over the high bits before them. */
  lemma TailsOf(s: seq<Byte>, p: nat, n: nat, lead: nat)
    requires 2 <= n <= 4 && p + n <= |s| && Continuations(s, p, n - 1)
    ensures var c := Assemble(s, p, lead, n - 1);
      && s[p + n - 1] == Tail(c) && (n >= 3 ==> s[p + n - 2] == Tail(c / 0x40))
      && (n == 4 ==> s[p + n - 3] == Tail(c / 0x40 / 0x40))
      && High(n, c) == lead
  {
    Assemble4(s, p, lead);
    TailBack(s[p + 1], lead);
    if n >= 3 {
      TailBack(s[p + 2], Assemble(s, p, lead, 1));
    }
    if n == 4 {
      TailBack(s[p + 3], Assemble(s, p, lead, 2));
    }
  }

  lemma {:induction false} ContinuationAt(s: seq<Byte>, p: nat, n: nat, i: nat)
    requires 1 <= i <= n && p + n < |s| && Continuations(s, p, n)
    ensures s[p + i] / 0x40 == 2
  {
    if i < n {
      ContinuationAt(s, p, n - 1, i);
    }
  }

  lemma NoneHere(s: seq<Byte>, p: nat)
    requires p < |s| && Length(s[p]) == 0
    ensures forall c :: !EncodedAt(s, p, c)
  {
    forall c | EncodedAt(s, p, c)
      ensures false
    {
      EncodedShape(s, p, c);
    }
  }

  lemma NoneCutShort(s: seq<Byte>, p: nat, i: nat)
    requires p + i < |s| && 1 <= i < Length(s[p]) && s[p + i] / 0x40 != 2
    ensures forall c :: !EncodedAt(s, p, c)
  {
    forall c | EncodedAt(s, p, c)
      ensures false
    {
      EncodedShape(s, p, c);
      ContinuationAt(s, p, |Encode(c)| - 1, i);
    }
  }

  lemma NoneOther(s: seq<Byte>, p: nat, n: nat, cp: nat)
    requires 1 <= n && p + n <= |s| && Length(s[p]) == n
    requires cp == Assemble(s, p, LeadBits(s[p]), n - 1) && (cp < Least(n) || !Scalar(cp))
    ensures forall c :: !EncodedAt(s, p, c)
  {
    forall c | EncodedAt(s, p, c)
      ensures false
    {
      EncodedShape(s, p, c);
    }
  }

  /** One character, strictly; p moves past it when there is one. */
  method Decode(s: seq<Byte>, p: nat) returns (ok: bool, cp: nat, p': nat)
    requires Terminated(s, p)
    ensures ok ==> EncodedAt(s, p, cp) && p' == p + |Encode(cp)| && Terminated(s, p')
    ensures !ok ==> p' == p && forall c :: !EncodedAt(s, p, c)
  {
    ok, cp, p' := false, 0, p;
    var len, min;
    var b := s[p];
    if b == 0 {
      NoneHere(s, p);
      return;
    }
    if b < 0x80 {
      cp, len, min := b, 1, 0;
    } else if 0xC2 <= b <= 0xDF {
      cp, len, min := b % 0x20, 2, 0x80;
    } else if b / 0x10 == 14 {
      cp, len, min := b % 0x10, 3, 0x800;
    } else if 0xF0 <= b <= 0xF4 {
      cp, len, min := b % 0x08, 4, 0x1_0000;
    } else {
      NoneHere(s, p);
      return;
    }
    assert len == Length(b) && cp == LeadBits(b) && min == Least(len);
    var i := 1;
    while i < len
      invariant 1 <= i <= len && p + i <= |s| && Terminated(s, p + i)
      invariant cp == Assemble(s, p, LeadBits(b), i - 1) && Continuations(s, p, i - 1)
    {
      if s[p + i] / 0x40 != 2 {
        NoneCutShort(s, p, i);
        return;
      }
      cp := cp * 0x40 + s[p + i] % 0x40;
      i := i + 1;
    }
    if cp < min || cp > 0x10FFFF || 0xD800 <= cp <= 0xDFFF {
      NoneOther(s, p, len, cp);
      return;
    }
    ShapeEncoded(s, p, len, cp);
    ok, p' := true, p + len;
  }

  // ---- A whole text ----

  /** The code of all characters but NUL. */
  function Utf8Code(c: nat): seq<Byte> {
    if Scalar(c) then Encode(c) else []
  }

  predicate Character(c: nat) {
    Scalar(c) && c > 0
  }

  /** Two characters that stand at one place are one. */
  lemma EncodingUnique(s: seq<Byte>, p: nat, c: int, d: int)
    requires EncodedAt(s, p, c) && EncodedAt(s, p, d)
    ensures c == d
  {
    EncodedShape(s, p, c);
    EncodedShape(s, p, d);
  }

  lemma Utf8Coding()
    ensures Coding(Utf8Code, Character)
  {
    forall c: nat, d: nat, s: seq<Byte>, p: nat |
      Character(c) && Character(d) && At(s, p, Utf8Code(c)) && At(s, p, Utf8Code(d))
      ensures c == d
    {
      EncodingUnique(s, p, c, d);
    }
  }

  lemma NoneSpelt(s: seq<Byte>, p: nat)
    requires p < |s| && Terminated(s, p) && s[p] != 0 && forall c :: !EncodedAt(s, p, c)
    ensures !Spellable(s, p, Utf8Code, Character)
  {
    Utf8Coding();
    forall c: nat | Character(c)
      ensures !At(s, p, Utf8Code(c))
    {
      assert !EncodedAt(s, p, c);
    }
    NoneStarts(s, p, Utf8Code, Character);
  }

  /** The next character, in the code's terms. */
  method Next(s: seq<Byte>, p: nat, ghost code: Code, ghost char?: nat -> bool) returns (ok: bool, cp: nat, p': nat)
    requires p < |s| && Terminated(s, p) && s[p] != 0 && code == Utf8Code && char? == Character
    ensures ok ==> char?(cp) && At(s, p, code(cp)) && p' == p + |code(cp)| && p < p'
    ensures !ok ==> !Spellable(s, p, code, char?)
  {
    ok, cp, p' := Decode(s, p);
    if !ok {
      NoneSpelt(s, p);
    }
  }

  /** Types a text: character by character, up to one that is not well-formed or that the layout does
      not have. `typeable` says which characters it has a key for. */
  method DoText(s: seq<Byte>, typeable: nat -> bool) returns (ok: bool, typed: seq<nat>)
    requires Terminated(s, 0)
    ensures ok <==> exists cps :: Spells(s, 0, cps, Utf8Code, Character) && All(cps, typeable)
    ensures ok ==> Spells(s, 0, typed, Utf8Code, Character) && All(typed, typeable)
    ensures All(typed, Character) && All(typed, typeable) && Concat(typed, Utf8Code) <= Text(s, 0)
  {
    ghost var code, char? := Utf8Code, Character;
    Utf8Coding();
    var p := 0;
    typed := [];
    while s[p] != 0
      invariant Read(s, p, typed, code, char?) && All(typed, typeable) && Forced(s, p, typed, code, char?)
      decreases |s| - p
    {
      var good, cp, p' := Next(s, p, code, char?);
      if !good {
        return false, typed;
      }
      ForcedOne(s, p, typed, cp, p', code, char?);
      if !typeable(cp) {
        LastRefused(s, typed, cp, code, char?, typeable);
        return false, typed;
      }
      ReadOne(s, p, typed, cp, p', code, char?);
      AllLast(typed, cp, typeable);
      typed, p := typed + [cp], p';
    }
    ReadAll(s, p, typed, code, char?);
    ok := true;
  }

  lemma LastRefused(s: seq<Byte>, typed: seq<nat>, cp: nat, code: Code, char?: nat -> bool, typeable: nat -> bool)
    requires 0 < |s| && Terminated(s, 0) && !typeable(cp)
    requires forall cps | Spells(s, 0, cps, code, char?) :: typed + [cp] <= cps
    ensures forall cps | Spells(s, 0, cps, code, char?) :: !All(cps, typeable)
  {
    forall cps | Spells(s, 0, cps, code, char?)
      ensures !All(cps, typeable)
    {
      assert cps[|typed|] == (typed + [cp])[|typed|] == cp;
    }
  }

  /** What the encoder writes of any characters is typed as those characters, whatever follows its NUL. */
  lemma EncodedTextIsTyped(cps: seq<nat>, rest: seq<Byte>, typed: seq<nat>)
    requires All(cps, Character)
    ensures var s := Concat(cps, Utf8Code) + [0] + rest;
      Terminated(s, 0) && Spells(s, 0, cps, Utf8Code, Character)
        && (Spells(s, 0, typed, Utf8Code, Character) ==> typed == cps)
  {
    Utf8Coding();
    var s := Concat(cps, Utf8Code) + [0] + rest;
    WrittenSpells(cps, rest, Utf8Code, Character);
    if Spells(s, 0, typed, Utf8Code, Character) {
      SpellsUnique(s, 0, typed, cps, Utf8Code, Character);
    }
  }
}
