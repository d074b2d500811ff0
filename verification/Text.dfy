/** The text functions of Go's standard library that keys and identities are built with. */
module Text {
  import opened Wrappers
  import opened ImmuStore

  /* ---------- strings.Join and strings.Split ---------- */

  function Join(pieces: seq<string>, sep: char): string {
    if |pieces| == 0 then ""
    else if |pieces| == 1 then pieces[0]
    else pieces[0] + [sep] + Join(pieces[1..], sep)
  }

  function Split(text: string, sep: char): (pieces: seq<string>)
    ensures |pieces| >= 1
  {
    if text == "" then [""]
    else
      var rest := Split(text[1..], sep);
      if text[0] == sep then [""] + rest else [[text[0]] + rest[0]] + rest[1..]
  }

  predicate Free(pieces: seq<string>, sep: char) {
    forall i :: 0 <= i < |pieces| ==> sep !in pieces[i]
  }

  lemma {:induction false} SplitFirst(piece: string, rest: string, sep: char)
    requires sep !in piece
    ensures Split(piece + [sep] + rest, sep) == [piece] + Split(rest, sep)
    decreases |piece|
  {
    var text := piece + [sep] + rest;
    if piece == "" {
      assert text[1..] == rest;
    } else {
      assert text[1..] == piece[1..] + [sep] + rest;
      SplitFirst(piece[1..], rest, sep);
      assert piece == [piece[0]] + piece[1..];
    }
  }

  lemma {:induction false} SplitWhole(piece: string, sep: char)
    requires sep !in piece
    ensures Split(piece, sep) == [piece]
    decreases |piece|
  {
    if piece != "" {
      SplitWhole(piece[1..], sep);
      assert piece == [piece[0]] + piece[1..];
    }
  }

  /** Joined text is uniquely decodable when there is a piece and no piece contains the separator. */
  lemma {:induction false} SplitJoin(pieces: seq<string>, sep: char)
    requires pieces != [] && Free(pieces, sep)
    ensures Split(Join(pieces, sep), sep) == pieces
    decreases |pieces|
  {
    if |pieces| == 1 {
      SplitWhole(pieces[0], sep);
    } else {
      SplitJoin(pieces[1..], sep);
      SplitFirst(pieces[0], Join(pieces[1..], sep), sep);
      assert pieces == [pieces[0]] + pieces[1..];
    }
  }

  lemma JoinFirst(piece: string, rest: seq<string>, sep: char)
    requires rest != []
    ensures Join([piece] + rest, sep) == piece + [sep] + Join(rest, sep)
  {
    assert ([piece] + rest)[1..] == rest;
  }

  lemma JoinExtend(c: char, pieces: seq<string>, sep: char)
    requires pieces != []
    ensures Join([[c] + pieces[0]] + pieces[1..], sep) == [c] + Join(pieces, sep)
  {
    var extended := [[c] + pieces[0]] + pieces[1..];
    assert extended[1..] == pieces[1..];
    if |pieces| > 1 {
      assert ([c] + pieces[0]) + [sep] + Join(pieces[1..], sep) == [c] + (pieces[0] + [sep] + Join(pieces[1..], sep));
    }
  }

  lemma {:induction false} JoinSplit(text: string, sep: char)
    ensures Join(Split(text, sep), sep) == text && Free(Split(text, sep), sep)
    decreases |text|
  {
    if text != "" {
      JoinSplit(text[1..], sep);
      JoinFirst("", Split(text[1..], sep), sep);
      JoinExtend(text[0], Split(text[1..], sep), sep);
      assert text == [text[0]] + text[1..];
    }
  }

  /** Two lists of separator-free pieces join to one text only if equal, or if one is empty and the other [""]. */
  lemma JoinInjective(a: seq<string>, b: seq<string>, sep: char)
    requires Free(a, sep) && Free(b, sep)
    ensures Join(a, sep) == Join(b, sep) <==> a == b || (a == [] && b == [""]) || (a == [""] && b == [])
  {
    if a != [] {
      SplitJoin(a, sep);
    }
    if b != [] {
      SplitJoin(b, sep);
    }
    SplitWhole("", sep);
  }

  /** A separator inside a piece is as good as a boundary between pieces. */
  lemma {:induction false} JoinMerge(pre: seq<string>, a: string, b: string, post: seq<string>, sep: char)
    ensures Join(pre + [a + [sep] + b] + post, sep) == Join(pre + [a, b] + post, sep)
    decreases |pre|
  {
    if pre == [] {
      var l, r := [a + [sep] + b] + post, [a, b] + post;
      assert pre + [a + [sep] + b] + post == l && pre + [a, b] + post == r;
      assert r[1..] == [b] + post && l[1..] == post && r[1..][1..] == post;
    } else {
      var l, r := pre + [a + [sep] + b] + post, pre + [a, b] + post;
      JoinMerge(pre[1..], a, b, post, sep);
      assert l[1..] == pre[1..] + [a + [sep] + b] + post;
      assert r[1..] == pre[1..] + [a, b] + post;
    }
  }

  /** A separator can move from the end of one piece's text to the start of the next one's. */
  lemma JoinSlide(pre: seq<string>, a: string, b: string, c: string, post: seq<string>, sep: char)
    ensures Join(pre + [a + [sep] + b, c] + post, sep) == Join(pre + [a, b + [sep] + c] + post, sep)
  {
    JoinMerge(pre, a, b, [c] + post, sep);
    JoinMerge(pre + [a], b, c, post, sep);
    assert pre + [a + [sep] + b, c] + post == pre + [a + [sep] + b] + ([c] + post);
    assert pre + [a, b + [sep] + c] + post == pre + [a] + [b + [sep] + c] + post;
    assert pre + [a, b] + ([c] + post) == pre + [a] + [b, c] + post;
  }

  lemma {:induction false} SplitAtSeparator(a: string, rest: string, sep: char)
    ensures |Split(a + [sep] + rest, sep)| == |Split(a, sep)| + |Split(rest, sep)|
    decreases |a|
  {
    var text := a + [sep] + rest;
    if a == "" {
      assert text[1..] == rest;
    } else {
      assert text[1..] == a[1..] + [sep] + rest;
      SplitAtSeparator(a[1..], rest, sep);
    }
  }

  lemma {:induction false} SplitInOne(piece: string, sep: char)
    ensures |Split(piece, sep)| == 1 <==> sep !in piece
    decreases |piece|
  {
    if piece != "" {
      SplitInOne(piece[1..], sep);
      assert piece == [piece[0]] + piece[1..];
    }
  }

  /** Splitting joined pieces never gives fewer, and gives as many only if no piece contains the separator. */
  lemma {:induction false} PieceCount(pieces: seq<string>, sep: char)
    requires pieces != []
    ensures |Split(Join(pieces, sep), sep)| >= |pieces|
    ensures |Split(Join(pieces, sep), sep)| == |pieces| <==> Free(pieces, sep)
    decreases |pieces|
  {
    SplitInOne(pieces[0], sep);
    if |pieces| > 1 {
      var rest := pieces[1..];
      PieceCount(rest, sep);
      SplitAtSeparator(pieces[0], Join(rest, sep), sep);
      assert Free(pieces, sep) <==> sep !in pieces[0] && Free(rest, sep) by {
        assert forall i :: 0 <= i < |rest| ==> rest[i] == pieces[i + 1];
        assert forall i :: 0 < i < |pieces| ==> pieces[i] == rest[i - 1];
      }
    }
  }

  /** How many pieces a reader of the joined text sees. */
  function Seen(pieces: seq<string>, sep: char): nat {
    if pieces == [] then 0 else |Split(Join(pieces, sep), sep)|
  }

  lemma {:induction false} SeenConcat(a: seq<string>, b: seq<string>, sep: char)
    ensures Seen(a + b, sep) == Seen(a, sep) + Seen(b, sep)
    decreases |a|
  {
    if a == [] {
      assert a + b == b;
    } else if |a| == 1 && b == [] {
      assert a + b == a;
    } else {
      var rest := a[1..];
      SeenConcat(rest, b, sep);
      assert a + b == [a[0]] + (rest + b);
      JoinFirst(a[0], rest + b, sep);
      SplitAtSeparator(a[0], Join(rest + b, sep), sep);
      if rest != [] {
        assert a == [a[0]] + rest;
        JoinFirst(a[0], rest, sep);
        SplitAtSeparator(a[0], Join(rest, sep), sep);
      }
    }
  }

  lemma SeenAtLeast(pieces: seq<string>, sep: char)
    ensures Seen(pieces, sep) >= |pieces|
    ensures Seen(pieces, sep) == |pieces| <==> Free(pieces, sep)
  {
    if pieces != [] {
      PieceCount(pieces, sep);
    }
  }

  /** Separator-free pieces are told apart from any pieces of the same number. */
  lemma JoinSameCount(a: seq<string>, b: seq<string>, sep: char)
    requires |a| == |b| > 0 && Free(a, sep)
    ensures Join(a, sep) == Join(b, sep) <==> a == b
  {
    if Join(a, sep) == Join(b, sep) {
      PieceCount(a, sep);
      PieceCount(b, sep);
      SplitJoin(a, sep);
      SplitJoin(b, sep);
    }
  }

  /** A common beginning can be cancelled. */
  lemma {:induction false} JoinCancel(pre: seq<string>, a: seq<string>, b: seq<string>, sep: char)
    requires a != [] && b != []
    ensures Join(pre + a, sep) == Join(pre + b, sep) <==> Join(a, sep) == Join(b, sep)
    decreases |pre|
  {
    if pre == [] {
      assert pre + a == a && pre + b == b;
    } else {
      var first, rest := pre[0], pre[1..];
      JoinCancel(rest, a, b, sep);
      assert pre + a == [first] + (rest + a) && pre + b == [first] + (rest + b);
      JoinFirst(first, rest + a, sep);
      JoinFirst(first, rest + b, sep);
      SameTail(first + [sep], Join(rest + a, sep), Join(rest + b, sep));
    }
  }

  lemma SameTail(front: string, a: string, b: string)
    ensures front + a == front + b <==> a == b
  {
    if front + a == front + b {
      assert a == (front + a)[|front|..] && b == (front + b)[|front|..];
    }
  }

  /* ---------- fmt ---------- */

  predicate IsDigit(c: char) { '0' <= c <= '9' }

  function Digit(d: nat): (c: char)
    requires d < 10
    ensures IsDigit(c) && c as int == '0' as int + d
  {
    ('0' as int + d) as char
  }

  function Decimal(n: nat): (s: string)
    ensures s != "" && forall i :: 0 <= i < |s| ==> IsDigit(s[i])
  {
    if n < 10 then [Digit(n)] else Decimal(n / 10) + [Digit(n % 10)]
  }

  function ParseDecimal(s: string): nat
    requires forall i :: 0 <= i < |s| ==> IsDigit(s[i])
  {
    if s == "" then 0
    else
      var last := |s| - 1;
      assert IsDigit(s[last]);
      10 * ParseDecimal(s[..last]) + (s[last] as int - '0' as int)
  }

  lemma {:induction false} DecimalRoundTrip(n: nat)
    ensures ParseDecimal(Decimal(n)) == n
    decreases n
  {
    if n < 10 {
      assert Decimal(n)[..0] == "";
    } else {
      DecimalRoundTrip(n / 10);
      var front := Decimal(n / 10);
      assert Decimal(n)[..|front|] == front;
    }
  }

  /** The usual notation: no leading zero, and the sign of a negative number in front. */
  lemma {:induction false} DecimalCanonical(n: nat)
    ensures n > 0 ==> Decimal(n)[0] != '0'
    ensures Decimal(0) == "0"
    decreases n
  {
    if n >= 10 {
      DecimalCanonical(n / 10);
    }
  }

  /** A run of digits without leading zero that reads as `n` is the text of `n`. */
  lemma {:induction false} DecimalUnique(s: string, n: nat)
    requires s != "" && (forall i :: 0 <= i < |s| ==> IsDigit(s[i])) && (|s| > 1 ==> s[0] != '0')
    requires ParseDecimal(s) == n
    ensures s == Decimal(n)
    decreases |s|
  {
    var front, d := s[..|s| - 1], s[|s| - 1];
    assert IsDigit(d);
    if |s| == 1 {
      assert front == "";
      assert s == [d];
    } else {
      ParseIsPositive(front);
      DecimalUnique(front, ParseDecimal(front));
      assert s == front + [d];
    }
  }

  lemma {:induction false} ParseIsPositive(s: string)
    requires s != "" && (forall i :: 0 <= i < |s| ==> IsDigit(s[i])) && s[0] != '0'
    ensures ParseDecimal(s) > 0
    decreases |s|
  {
    assert IsDigit(s[0]) && IsDigit(s[|s| - 1]);
    if |s| > 1 {
      ParseIsPositive(s[..|s| - 1]);
    }
  }

  function SignedDecimal(n: int): string {
    if n < 0 then "-" + Decimal(-n) else Decimal(n)
  }

  lemma DecimalInjective(a: nat, b: nat)
    ensures Decimal(a) == Decimal(b) <==> a == b
  {
    DecimalRoundTrip(a);
    DecimalRoundTrip(b);
  }

  lemma SignedDecimalInjective(a: int, b: int)
    ensures SignedDecimal(a) == SignedDecimal(b) <==> a == b
  {
    if a < 0 && b < 0 {
      assert SignedDecimal(a)[1..] == Decimal(-a) && SignedDecimal(b)[1..] == Decimal(-b);
      DecimalInjective(-a, -b);
    } else if a >= 0 && b >= 0 {
      DecimalInjective(a, b);
    } else {
      assert SignedDecimal(a)[0] == '-' <==> a < 0;
      assert SignedDecimal(b)[0] == '-' <==> b < 0;
    }
  }

  function BoolText(b: bool): string { if b then "true" else "false" }

  /** A protobuf enum prints its name, or its number when the number has no name. */
  function EnumText(name: Option<string>, n: int): string {
    if name.Some? then name.value else SignedDecimal(n)
  }

  /** A name starts with a letter, so it is no number. */
  predicate IsName(s: string) { s != "" && !IsDigit(s[0]) && s[0] != '-' }

  lemma NamesAreNotNumbers(s: string, n: int)
    requires IsName(s)
    ensures s != SignedDecimal(n)
  {
    assert IsDigit(SignedDecimal(n)[0]) || SignedDecimal(n)[0] == '-';
  }

  /* ---------- encoding/hex ---------- */

  function HexDigit(d: nat): char
    requires d < 16
  {
    if d < 10 then Digit(d) else ('a' as int + (d - 10)) as char
  }

  function HexValue(c: char): (r: Option<nat>)
    ensures r.Some? ==> r.value < 16
  {
    if IsDigit(c) then Some(c as int - '0' as int)
    else if 'a' <= c <= 'f' then Some(c as int - 'a' as int + 10)
    else if 'A' <= c <= 'F' then Some(c as int - 'A' as int + 10)
    else None
  }

  function Hex(b: Bytes): string {
    if b == [] then "" else [HexDigit(b[0] / 16), HexDigit(b[0] % 16)] + Hex(b[1..])
  }

  /** hex.DecodeString: an odd length or a foreign character is an error. */
  function HexDecode(s: string): Option<Bytes> {
    if s == "" then Some([])
    else if |s| == 1 then None
    else
      var high, low, rest := HexValue(s[0]), HexValue(s[1]), HexDecode(s[2..]);
      if high.None? || low.None? || rest.None? then None
      else Some([high.value * 16 + low.value] + rest.value)
  }

  lemma {:induction false} HexRoundTrip(b: Bytes)
    ensures HexDecode(Hex(b)) == Some(b)
    decreases |b|
  {
    if b != [] {
      HexRoundTrip(b[1..]);
      assert Hex(b)[2..] == Hex(b[1..]);
      assert b == [b[0]] + b[1..];
    }
  }

  lemma HexInjective(a: Bytes, b: Bytes)
    ensures Hex(a) == Hex(b) <==> a == b
  {
    HexRoundTrip(a);
    HexRoundTrip(b);
  }

  function LowerChar(c: char): char {
    if 'A' <= c <= 'Z' then (c as int + 32) as char else c
  }

  function Lower(s: string): (r: string)
    ensures |r| == |s| && forall i :: 0 <= i < |s| ==> r[i] == LowerChar(s[i])
  {
    seq(|s|, i requires 0 <= i < |s| => LowerChar(s[i]))
  }

  /** Hex text has two of the characters 0 to 9 and a to f for each byte. */
  lemma {:induction false} HexShape(b: Bytes)
    ensures |Hex(b)| == 2 * |b|
    ensures forall i :: 0 <= i < |Hex(b)| ==> '0' <= Hex(b)[i] <= '9' || 'a' <= Hex(b)[i] <= 'f'
    decreases |b|
  {
    if b != [] {
      HexShape(b[1..]);
    }
  }

  lemma HexPair(c: char, d: char, n: nat)
    requires n < 256
    ensures HexValue(c).Some? && HexValue(d).Some? && HexValue(c).value * 16 + HexValue(d).value == n
       <==> LowerChar(c) == HexDigit(n / 16) && LowerChar(d) == HexDigit(n % 16)
  {
  }

  /** What the decoder accepts, exactly: the hex text of bytes, in upper or lower case. */
  lemma {:induction false} HexDecodeExact(s: string, b: Bytes)
    ensures HexDecode(s) == Some(b) <==> Lower(s) == Hex(b)
    decreases |s|
  {
    HexShape(b);
    if |s| >= 2 && b != [] {
      HexDecodeExact(s[2..], b[1..]);
      HexPair(s[0], s[1], b[0]);
      assert Lower(s) == [LowerChar(s[0]), LowerChar(s[1])] + Lower(s[2..]);
      assert b == [b[0]] + b[1..];
      if Lower(s) == Hex(b) {
        assert Lower(s)[2..] == Lower(s[2..]) && Hex(b)[2..] == Hex(b[1..]);
        assert Lower(s)[0] == Hex(b)[0] && Lower(s)[1] == Hex(b)[1];
      }
      if HexDecode(s) == Some(b) {
        assert HexDecode(s[2..]).value == b[1..];
      }
    }
  }

  lemma HexExample()
    ensures Hex([0x0a, 0xbf]) == "0abf" && HexDecode("0aBF") == Some([0x0a, 0xbf])
  {
    assert Hex([0x0a, 0xbf]) == [HexDigit(0), HexDigit(10)] + Hex([0x0a, 0xbf][1..]);
    assert [0x0a, 0xbf][1..] == [0xbf] && Hex([0xbf]) == [HexDigit(11), HexDigit(15)] + Hex([0xbf][1..]);
    assert Lower("0aBF") == "0abf";
    HexDecodeExact("0aBF", [0x0a, 0xbf]);
  }
}
