/** Base 64 as sections 4 and 5 of RFC 4648 define it: the standard alphabet with padding, the URL alphabet without. */
module Base64 {
  import opened ImmuStore

  datatype Encoding = Std | RawURL

  type Sextet = x: nat | x < 64

  /* ---------- Regrouping bits ---------- */

  /** Groups of three bytes become four sextets; a short last group is completed with zero bits. */
  function Sextets(b: Bytes): seq<Sextet> {
    if |b| == 0 then []
    else if |b| == 1 then [b[0] / 4, b[0] % 4 * 16]
    else if |b| == 2 then [b[0] / 4, b[0] % 4 * 16 + b[1] / 16, b[1] % 16 * 4]
    else [b[0] / 4, b[0] % 4 * 16 + b[1] / 16, b[1] % 16 * 4 + b[2] / 64, b[2] % 64] + Sextets(b[3..])
  }

  function FromSextets(v: seq<Sextet>): Bytes {
    if |v| < 2 then []
    else if |v| == 2 then [v[0] as int * 4 + v[1] / 16]
    else if |v| == 3 then [v[0] as int * 4 + v[1] / 16, v[1] as int % 16 * 16 + v[2] / 4]
    else
      [v[0] as int * 4 + v[1] / 16, v[1] as int % 16 * 16 + v[2] / 4, v[2] as int % 4 * 64 + v[3]]
      + FromSextets(v[4..])
  }

  lemma {:induction false} SextetsRoundTrip(b: Bytes)
    ensures FromSextets(Sextets(b)) == b
    decreases |b|
  {
    if |b| >= 3 {
      SextetsRoundTrip(b[3..]);
      assert Sextets(b)[4..] == Sextets(b[3..]);
      assert b == [b[0], b[1], b[2]] + b[3..];
    }
  }

  /* ---------- Spelling ---------- */

  function Letter(e: Encoding, n: Sextet): char {
    if n < 26 then ('A' as int + n) as char
    else if n < 52 then ('a' as int + (n - 26)) as char
    else if n < 62 then ('0' as int + (n - 52)) as char
    else if n == 62 then (if e.Std? then '+' else '-')
    else (if e.Std? then '/' else '_')
  }

  function Value(c: char): Sextet {
    if 'A' <= c <= 'Z' then c as int - 'A' as int
    else if 'a' <= c <= 'z' then c as int - 'a' as int + 26
    else if '0' <= c <= '9' then c as int - '0' as int + 52
    else if c == '+' || c == '-' then 62
    else 63
  }

  function Spell(e: Encoding, v: seq<Sextet>): string {
    if v == [] then "" else [Letter(e, v[0])] + Spell(e, v[1..])
  }

  /** The letters of a text, up to the padding. */
  function Unspell(s: string): seq<Sextet> {
    if s == "" || s[0] == '=' then [] else [Value(s[0])] + Unspell(s[1..])
  }

  function Padding(e: Encoding, length: nat): string {
    if e.RawURL? || length % 3 == 0 then "" else if length % 3 == 1 then "==" else "="
  }

  function Encode(e: Encoding, b: Bytes): string { Spell(e, Sextets(b)) + Padding(e, |b|) }

  function Decode(s: string): Bytes { FromSextets(Unspell(s)) }

  lemma LetterValue(e: Encoding, n: Sextet)
    ensures Value(Letter(e, n)) == n && Letter(e, n) != '='
  {
  }

  lemma {:induction false} UnspellSpell(e: Encoding, v: seq<Sextet>, padding: string)
    requires padding == "" || padding[0] == '='
    ensures Unspell(Spell(e, v) + padding) == v
    decreases |v|
  {
    if v == [] {
      assert Spell(e, v) + padding == padding;
    } else {
      LetterValue(e, v[0]);
      UnspellSpell(e, v[1..], padding);
      hide Value, Letter;
      assert (Spell(e, v) + padding)[1..] == Spell(e, v[1..]) + padding;
      assert v == [v[0]] + v[1..];
    }
  }

  lemma RoundTrip(e: Encoding, b: Bytes)
    ensures Decode(Encode(e, b)) == b
  {
    UnspellSpell(e, Sextets(b), Padding(e, |b|));
    SextetsRoundTrip(b);
  }

  lemma EncodeInjective(e: Encoding, a: Bytes, b: Bytes)
    ensures Encode(e, a) == Encode(e, b) <==> a == b
  {
    RoundTrip(e, a);
    RoundTrip(e, b);
  }

  lemma {:induction false} SpellNoDot(e: Encoding, v: seq<Sextet>)
    ensures '.' !in Spell(e, v)
    decreases |v|
  {
    if v != [] {
      SpellNoDot(e, v[1..]);
    }
  }

  lemma NoDot(e: Encoding, b: Bytes)
    ensures '.' !in Encode(e, b)
  {
    SpellNoDot(e, Sextets(b));
  }

  /* ---------- The shape of the text ---------- */

  /** The characters of the alphabets. */
  predicate InAlphabet(e: Encoding, c: char) {
    || 'A' <= c <= 'Z' || 'a' <= c <= 'z' || '0' <= c <= '9'
    || (e.Std? && (c == '+' || c == '/')) || (e.RawURL? && (c == '-' || c == '_'))
  }

  lemma {:induction false} SextetCount(b: Bytes)
    ensures |Sextets(b)| == (4 * |b| + 2) / 3
    decreases |b|
  {
    if |b| >= 3 {
      SextetCount(b[3..]);
    }
  }

  lemma {:induction false} SpellShape(e: Encoding, v: seq<Sextet>)
    ensures |Spell(e, v)| == |v| && forall i :: 0 <= i < |v| ==> InAlphabet(e, Spell(e, v)[i])
    decreases |v|
  {
    if v != [] {
      SpellShape(e, v[1..]);
    }
  }

  /**
   Standard text is groups of four characters, of the standard alphabet but for one or two `=` at its end; URL
   text is just the characters needed, of the URL alphabet.
   */
  lemma EncodedShape(e: Encoding, b: Bytes)
    ensures var s, letters := Encode(e, b), (4 * |b| + 2) / 3;
            && |s| == (if e.Std? then (|b| + 2) / 3 * 4 else letters)
            && letters <= |s| <= letters + 2
            && (forall i :: 0 <= i < letters ==> InAlphabet(e, s[i]))
            && (forall i :: letters <= i < |s| ==> s[i] == '=')
  {
    SextetCount(b);
    SpellShape(e, Sextets(b));
    PaddingCount(|b|);
    var letters := Spell(e, Sextets(b));
    forall i | 0 <= i < |letters| ensures Encode(e, b)[i] == letters[i] {
    }
  }

  lemma PaddingCount(n: nat)
    ensures (4 * n + 2) / 3 + |Padding(Std, n)| == (n + 2) / 3 * 4
    ensures |Padding(RawURL, n)| == 0 && |Padding(Std, n)| <= 2
  {
    var q, r := n / 3, n % 3;
    assert n == 3 * q + r;
  }

  /** The test vectors of section 10 of RFC 4648 for up to three bytes. */
  lemma Vectors()
    ensures Encode(Std, [0x66]) == "Zg==" && Encode(Std, [0x66, 0x6f]) == "Zm8="
    ensures Encode(Std, [0x66, 0x6f, 0x6f]) == "Zm9v"
  {
    SpellTwo(Std, 25, 32);
    SpellThree(Std, 25, 38, 60);
    FooSextets();
    SpellFirst(Std, 25, [38, 61, 47]);
    SpellThree(Std, 38, 61, 47);
    assert [25] + [38, 61, 47] == [25, 38, 61, 47];
  }

  lemma FooSextets()
    ensures Sextets([0x66, 0x6f, 0x6f]) == [25, 38, 61, 47]
  {
    var foo: Bytes := [0x66, 0x6f, 0x6f];
    assert foo[3..] == [] && Sextets([]) == [];
  }

  /** Bytes on which the two alphabets differ. */
  lemma AlphabetsDiffer()
    ensures Encode(Std, [0xfb, 0xff]) == "+/8=" && Encode(RawURL, [0xfb, 0xff]) == "-_8"
  {
    SpellThree(Std, 62, 63, 60);
    SpellThree(RawURL, 62, 63, 60);
  }

  lemma SpellFirst(e: Encoding, a: Sextet, v: seq<Sextet>)
    ensures Spell(e, [a] + v) == [Letter(e, a)] + Spell(e, v)
  {
    assert ([a] + v)[1..] == v;
  }

  lemma SpellTwo(e: Encoding, a: Sextet, b: Sextet)
    ensures Spell(e, [a, b]) == [Letter(e, a), Letter(e, b)]
  {
    SpellFirst(e, b, []);
    SpellFirst(e, a, [b]);
    assert [a] + [b] == [a, b] && [b] + [] == [b];
  }

  lemma SpellThree(e: Encoding, a: Sextet, b: Sextet, c: Sextet)
    ensures Spell(e, [a, b, c]) == [Letter(e, a), Letter(e, b), Letter(e, c)]
  {
    SpellTwo(e, b, c);
    SpellFirst(e, a, [b, c]);
    assert [a] + [b, c] == [a, b, c];
  }
}
