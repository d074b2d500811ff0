/**
 The cache keys of the three read requests.  Each is the hash of newline-joined text; the lemmas say when
 the text determines the request.  `sha` stands for SHA-256.
 */
module CacheKeys {
  import opened Wrappers
  import opened ImmuStore
  import opened Text

  const NL := '\n'

  function KeyOf(sha: string -> Bytes, text: string): string { Hex(sha(text)) }

  /** A cache key is the hash in lower-case hex. */
  lemma KeyOfDecodes(sha: string -> Bytes, text: string)
    ensures HexDecode(KeyOf(sha, text)) == Some(sha(text)) && Lower(KeyOf(sha, text)) == KeyOf(sha, text)
  {
    HexRoundTrip(sha(text));
    HexDecodeExact(KeyOf(sha, text), sha(text));
  }

  /** Two cache keys are equal exactly when the hashes of their texts are. */
  lemma KeyOfInjective(sha: string -> Bytes, a: string, b: string)
    ensures KeyOf(sha, a) == KeyOf(sha, b) <==> sha(a) == sha(b)
  {
    HexInjective(sha(a), sha(b));
  }

  /* ---------- VCNSearchRequest ---------- */

  function ArtifactTypeName(n: int): Option<string> {
    match n
    case 0 => Some("Direct")
    case 1 => Some("Indirect")
    case 2 => Some("Base")
    case _ => None
  }

  function SearchTypeName(n: int): Option<string> {
    match n
    case 0 => Some("Artifact")
    case 1 => Some("Dependencies")
    case 2 => Some("WhatIncludes")
    case 4 => Some("ArtifactTimed")
    case 5 => Some("Attachment")
    case 6 => Some("ByApiKey")
    case 7 => Some("ByName")
    case 8 => Some("History")
    case _ => None
  }

  datatype VCNSearchRequest = VCNSearchRequest(
    hash: string, signerID: string, aType: int, sType: int, limit: nat, desc: bool,
    startTS: int, endTS: int, attachName: string, artifactName: string, uid: string,
    continuationToken: Bytes)
  {
    method GetKey(sha: string -> Bytes, prefix: seq<string>) returns (key: string)
      ensures key == KeyOf(sha, SearchText(prefix, this))
    {
      var pieces: seq<string> := [];
      pieces := pieces + prefix;
      pieces := pieces + [hash];
      pieces := pieces + [signerID];
      pieces := pieces + [EnumText(ArtifactTypeName(aType), aType)];
      pieces := pieces + [EnumText(SearchTypeName(sType), sType)];
      pieces := pieces + [Decimal(limit)];
      pieces := pieces + [BoolText(desc)];
      pieces := pieces + [SignedDecimal(startTS)];
      pieces := pieces + [SignedDecimal(endTS)];
      pieces := pieces + [attachName];
      pieces := pieces + [artifactName];
      pieces := pieces + [uid];
      assert pieces == SearchPieces(prefix, this);
      key := KeyOf(sha, Join(pieces, NL));
    }
  }

  /** The rendered fields that cannot contain a newline. */
  function Middle(r: VCNSearchRequest): seq<string> {
    [EnumText(ArtifactTypeName(r.aType), r.aType), EnumText(SearchTypeName(r.sType), r.sType), Decimal(r.limit),
     BoolText(r.desc), SignedDecimal(r.startTS), SignedDecimal(r.endTS)]
  }

  function Fields(r: VCNSearchRequest): seq<string> {
    Layout([], r.hash, r.signerID, Middle(r), r.attachName, r.artifactName, r.uid)
  }

  function SearchPieces(prefix: seq<string>, r: VCNSearchRequest): seq<string> {
    Layout(prefix, r.hash, r.signerID, Middle(r), r.attachName, r.artifactName, r.uid)
  }

  function SearchText(prefix: seq<string>, r: VCNSearchRequest): string { Join(SearchPieces(prefix, r), NL) }

  function Layout(prefix: seq<string>, hash: string, signer: string, middle: seq<string>,
                  attach: string, artifact: string, uid: string): seq<string>
  {
    prefix + [hash, signer] + middle + [attach, artifact, uid]
  }

  /** The part of a search request that its key speaks about: all but the continuation token. */
  function Keyed(r: VCNSearchRequest): VCNSearchRequest { r.(continuationToken := []) }

  predicate LineSafe(prefix: seq<string>, r: VCNSearchRequest) {
    && Free(prefix, NL)
    && NL !in r.hash && NL !in r.signerID && NL !in r.attachName && NL !in r.artifactName && NL !in r.uid
  }

  lemma NumbersAreLineSafe(n: int)
    ensures NL !in SignedDecimal(n)
  {
  }

  lemma ArtifactTypeText(a: int, b: int)
    ensures EnumText(ArtifactTypeName(a), a) == EnumText(ArtifactTypeName(b), b) <==> a == b
    ensures NL !in EnumText(ArtifactTypeName(a), a)
  {
    var na, nb := ArtifactTypeName(a), ArtifactTypeName(b);
    assert na.Some? ==> |na.value| == [6, 8, 4][a] && IsName(na.value);
    assert nb.Some? ==> |nb.value| == [6, 8, 4][b] && IsName(nb.value);
    EnumTextsDiffer(na, a, nb, b);
    NumbersAreLineSafe(a);
  }

  lemma SearchTypeShape(n: int)
    ensures var name := SearchTypeName(n);
            name.Some? ==> (|name.value|, name.value[0]) == NameShape(n) && IsName(name.value) && NL !in name.value
  {
  }

  lemma SearchTypeText(a: int, b: int)
    ensures EnumText(SearchTypeName(a), a) == EnumText(SearchTypeName(b), b) <==> a == b
    ensures NL !in EnumText(SearchTypeName(a), a)
  {
    SearchTypeShape(a);
    SearchTypeShape(b);
    EnumTextsDiffer(SearchTypeName(a), a, SearchTypeName(b), b);
    NumbersAreLineSafe(a);
    assert SearchTypeName(a).Some? && SearchTypeName(b).Some? && a != b ==> NameShape(a) != NameShape(b);
  }

  /** Length and first letter tell the search types apart. */
  function NameShape(n: int): (nat, char) {
    match n
    case 0 => (8, 'A')
    case 1 => (12, 'D')
    case 2 => (12, 'W')
    case 4 => (13, 'A')
    case 5 => (10, 'A')
    case 6 => (8, 'B')
    case 7 => (6, 'B')
    case _ => (7, 'H')
  }

  lemma EnumTextsDiffer(na: Option<string>, a: int, nb: Option<string>, b: int)
    requires na.Some? ==> IsName(na.value)
    requires nb.Some? ==> IsName(nb.value)
    ensures EnumText(na, a) == EnumText(nb, b) ==> (na.None? && nb.None? && a == b) || (na.Some? && na == nb)
  {
    if na.None? && nb.None? {
      SignedDecimalInjective(a, b);
    } else if na.Some? && nb.None? {
      NamesAreNotNumbers(na.value, b);
    } else if na.None? && nb.Some? {
      NamesAreNotNumbers(nb.value, a);
    }
  }

  lemma MiddleInjective(a: VCNSearchRequest, b: VCNSearchRequest)
    ensures Middle(a) == Middle(b) <==>
            && a.aType == b.aType && a.sType == b.sType && a.limit == b.limit
            && a.desc == b.desc && a.startTS == b.startTS && a.endTS == b.endTS
  {
    var ma, mb := Middle(a), Middle(b);
    ArtifactTypeText(a.aType, b.aType);
    SearchTypeText(a.sType, b.sType);
    DecimalInjective(a.limit, b.limit);
    SignedDecimalInjective(a.startTS, b.startTS);
    SignedDecimalInjective(a.endTS, b.endTS);
    assert |BoolText(true)| != |BoolText(false)|;
    if ma == mb {
      assert ma[0] == mb[0] && ma[1] == mb[1] && ma[2] == mb[2] && ma[3] == mb[3] && ma[4] == mb[4] && ma[5] == mb[5];
    }
  }

  lemma MiddleLineSafe(r: VCNSearchRequest)
    ensures Free(Middle(r), NL)
  {
    ArtifactTypeText(r.aType, r.aType);
    SearchTypeText(r.sType, r.sType);
    NumbersAreLineSafe(r.limit);
    NumbersAreLineSafe(r.startTS);
    NumbersAreLineSafe(r.endTS);
  }

  lemma LineSafePieces(prefix: seq<string>, r: VCNSearchRequest)
    requires LineSafe(prefix, r)
    ensures Free(SearchPieces(prefix, r), NL)
  {
    MiddleLineSafe(r);
    FreeConcat([r.hash, r.signerID], Middle(r));
    assert Fields(r) == [r.hash, r.signerID] + Middle(r) + [r.attachName, r.artifactName, r.uid];
    FreeConcat([r.hash, r.signerID] + Middle(r), [r.attachName, r.artifactName, r.uid]);
    FreeConcat(prefix, Fields(r));
    assert SearchPieces(prefix, r) == prefix + Fields(r);
  }

  lemma FreeConcat(a: seq<string>, b: seq<string>)
    ensures Free(a + b, NL) <==> Free(a, NL) && Free(b, NL)
  {
    assert forall i :: 0 <= i < |a| ==> (a + b)[i] == a[i];
    assert forall i :: 0 <= i < |b| ==> (a + b)[|a| + i] == b[i];
  }

  /** The eleven rendered fields determine the request, unnamed enum numbers included. */
  lemma FieldsInjective(a: VCNSearchRequest, b: VCNSearchRequest)
    ensures Fields(a) == Fields(b) <==> Keyed(a) == Keyed(b)
  {
    var fa, fb := Fields(a), Fields(b);
    MiddleInjective(a, b);
    if fa == fb {
      assert fa[2..8] == Middle(a) && fb[2..8] == Middle(b);
      assert fa[0] == fb[0] && fa[1] == fb[1] && fa[8] == fb[8] && fa[9] == fb[9] && fa[10] == fb[10];
    }
  }

  /** Splitting the key text gives back the prefix and the fields. */
  lemma SearchTextDecodes(prefix: seq<string>, r: VCNSearchRequest)
    requires LineSafe(prefix, r)
    ensures var lines := Split(SearchText(prefix, r), NL);
            |lines| == |prefix| + 11 && lines[..|prefix|] == prefix && lines[|prefix|..] == Fields(r)
  {
    LineSafePieces(prefix, r);
    assert SearchPieces(prefix, r) == prefix + Fields(r);
    SplitJoin(SearchPieces(prefix, r), NL);
  }

  /**
   What each line of the key text holds: the prefixes, then the eleven fields in this order, enums by name where
   the number has one, numbers in decimal.
   */
  lemma SearchLines(prefix: seq<string>, r: VCNSearchRequest)
    requires LineSafe(prefix, r)
    ensures var lines, n := Split(SearchText(prefix, r), '\n'), |prefix|;
            && |lines| == n + 11 && lines[..n] == prefix
            && lines[n] == r.hash && lines[n + 1] == r.signerID
            && lines[n + 2] == (if r.aType == 0 then "Direct" else if r.aType == 1 then "Indirect"
                                else if r.aType == 2 then "Base" else SignedDecimal(r.aType))
            && lines[n + 3] == (if r.sType == 0 then "Artifact" else if r.sType == 1 then "Dependencies"
                                else if r.sType == 2 then "WhatIncludes" else if r.sType == 4 then "ArtifactTimed"
                                else if r.sType == 5 then "Attachment" else if r.sType == 6 then "ByApiKey"
                                else if r.sType == 7 then "ByName" else if r.sType == 8 then "History"
                                else SignedDecimal(r.sType))
            && lines[n + 4] == Decimal(r.limit)
            && lines[n + 5] == (if r.desc then "true" else "false")
            && lines[n + 6] == (if r.startTS < 0 then "-" + Decimal(-r.startTS) else Decimal(r.startTS))
            && lines[n + 7] == (if r.endTS < 0 then "-" + Decimal(-r.endTS) else Decimal(r.endTS))
            && lines[n + 8] == r.attachName && lines[n + 9] == r.artifactName && lines[n + 10] == r.uid
  {
    hide ArtifactTypeName, SearchTypeName, Decimal;
    var n := |prefix|;
    SearchTextDecodes(prefix, r);
    forall i | 0 <= i < 11 ensures Split(SearchText(prefix, r), NL)[n + i] == Fields(r)[i] {
      LineAfter(Split(SearchText(prefix, r), NL), n, i);
    }
    FieldsAt(r);
    TypeNames(r.aType, r.sType);
  }

  lemma LineAfter(lines: seq<string>, n: nat, i: nat)
    requires n + i < |lines|
    ensures lines[n..][i] == lines[n + i]
  {
  }

  lemma TypeNames(aType: int, sType: int)
    ensures EnumText(ArtifactTypeName(aType), aType)
         == (if aType == 0 then "Direct" else if aType == 1 then "Indirect" else if aType == 2 then "Base"
             else SignedDecimal(aType))
    ensures EnumText(SearchTypeName(sType), sType)
         == (if sType == 0 then "Artifact" else if sType == 1 then "Dependencies" else if sType == 2 then "WhatIncludes"
             else if sType == 4 then "ArtifactTimed" else if sType == 5 then "Attachment"
             else if sType == 6 then "ByApiKey" else if sType == 7 then "ByName" else if sType == 8 then "History"
             else SignedDecimal(sType))
  {
  }

  lemma FieldsAt(r: VCNSearchRequest)
    ensures var f := Fields(r);
            && f[0] == r.hash && f[1] == r.signerID && f[8] == r.attachName && f[9] == r.artifactName && f[10] == r.uid
            && f[2] == EnumText(ArtifactTypeName(r.aType), r.aType)
            && f[3] == EnumText(SearchTypeName(r.sType), r.sType)
            && f[4] == Decimal(r.limit) && f[5] == BoolText(r.desc)
            && f[6] == SignedDecimal(r.startTS) && f[7] == SignedDecimal(r.endTS)
  {
    hide ArtifactTypeName, SearchTypeName, Decimal;
    assert |Middle(r)| == 6;
  }

  /** Among newline-free requests the key text is equal exactly when prefix and fields are. */
  lemma SearchTextInjective(p: seq<string>, a: VCNSearchRequest, q: seq<string>, b: VCNSearchRequest)
    requires LineSafe(p, a) && LineSafe(q, b)
    ensures SearchText(p, a) == SearchText(q, b) <==> p == q && Keyed(a) == Keyed(b)
  {
    SearchTextDecodes(p, a);
    SearchTextDecodes(q, b);
    FieldsInjective(a, b);
  }

  function CutFirst(s: string): (string, string)
    requires NL in s
    ensures var (a, b) := CutFirst(s); s == a + [NL] + b
  {
    if s[0] == NL then ("", s[1..])
    else var (a, b) := CutFirst(s[1..]); ([s[0]] + a, b)
  }

  lemma ShiftInPrefix(p: seq<string>, i: nat, a: string, b: string, h: string, s: string, m: seq<string>,
                      at: string, ar: string, u: string)
    requires i < |p| && p[i] == a + [NL] + b
    ensures Join(Layout(p, h, s, m, at, ar, u), NL)
         == Join(Layout(p[..i] + [a, b] + p[i + 1..], h, s, m, at, ar, u), NL)
  {
    var post := p[i + 1..] + [h, s] + m + [at, ar, u];
    JoinMerge(p[..i], a, b, post, NL);
    assert Layout(p, h, s, m, at, ar, u) == p[..i] + [a + [NL] + b] + post;
    assert Layout(p[..i] + [a, b] + p[i + 1..], h, s, m, at, ar, u) == p[..i] + [a, b] + post;
  }

  lemma ShiftBetweenFirst(p: seq<string>, a: string, b: string, s: string, m: seq<string>,
                          at: string, ar: string, u: string)
    ensures Join(Layout(p, a + [NL] + b, s, m, at, ar, u), NL) == Join(Layout(p, a, b + [NL] + s, m, at, ar, u), NL)
  {
    var post := m + [at, ar, u];
    JoinSlide(p, a, b, s, post, NL);
    assert Layout(p, a + [NL] + b, s, m, at, ar, u) == p + [a + [NL] + b, s] + post;
    assert Layout(p, a, b + [NL] + s, m, at, ar, u) == p + [a, b + [NL] + s] + post;
  }

  lemma ShiftFromAttach(p: seq<string>, h: string, s: string, m: seq<string>, a: string, b: string, ar: string,
                        u: string)
    ensures Join(Layout(p, h, s, m, a + [NL] + b, ar, u), NL) == Join(Layout(p, h, s, m, a, b + [NL] + ar, u), NL)
  {
    var pre := p + [h, s] + m;
    JoinSlide(pre, a, b, ar, [u], NL);
    assert Layout(p, h, s, m, a + [NL] + b, ar, u) == pre + [a + [NL] + b, ar] + [u];
    assert Layout(p, h, s, m, a, b + [NL] + ar, u) == pre + [a, b + [NL] + ar] + [u];
  }

  lemma ShiftBetweenLast(p: seq<string>, h: string, s: string, m: seq<string>, at: string, a: string, b: string,
                         u: string)
    ensures Join(Layout(p, h, s, m, at, a + [NL] + b, u), NL) == Join(Layout(p, h, s, m, at, a, b + [NL] + u), NL)
  {
    var pre := p + [h, s] + m + [at];
    JoinSlide(pre, a, b, u, [], NL);
    assert Layout(p, h, s, m, at, a + [NL] + b, u) == pre + [a + [NL] + b, u] + [];
    assert Layout(p, h, s, m, at, a, b + [NL] + u) == pre + [a, b + [NL] + u] + [];
  }

  /** One of the five text fields has a newline. */
  predicate Breaks(r: VCNSearchRequest) {
    NL in r.hash || NL in r.signerID || NL in r.attachName || NL in r.artifactName || NL in r.uid
  }

  /** With a newline in a field, the text between two fields can be divided otherwise. */
  lemma Divide(p: seq<string>, r: VCNSearchRequest) returns (s: VCNSearchRequest)
    requires Breaks(r)
    ensures SearchText(p, s) == SearchText(p, r) && Keyed(s) != Keyed(r)
  {
    var m := Middle(r);
    if NL in r.hash {
      var (a, b) := CutFirst(r.hash);
      s := r.(hash := a, signerID := b + [NL] + r.signerID);
      ShiftBetweenFirst(p, a, b, r.signerID, m, r.attachName, r.artifactName, r.uid);
      assert |s.hash| < |r.hash|;
    } else if NL in r.signerID {
      var (a, b) := CutFirst(r.signerID);
      s := r.(hash := r.hash + [NL] + a, signerID := b);
      ShiftBetweenFirst(p, r.hash, a, b, m, r.attachName, r.artifactName, r.uid);
      assert |s.signerID| < |r.signerID|;
    } else if NL in r.attachName {
      var (a, b) := CutFirst(r.attachName);
      s := r.(attachName := a, artifactName := b + [NL] + r.artifactName);
      ShiftFromAttach(p, r.hash, r.signerID, m, a, b, r.artifactName, r.uid);
      assert |s.attachName| < |r.attachName|;
    } else if NL in r.artifactName {
      var (a, b) := CutFirst(r.artifactName);
      s := r.(artifactName := a, uid := b + [NL] + r.uid);
      ShiftBetweenLast(p, r.hash, r.signerID, m, r.attachName, a, b, r.uid);
      assert |s.artifactName| < |r.artifactName|;
    } else {
      var (a, b) := CutFirst(r.uid);
      s := r.(artifactName := r.artifactName + [NL] + a, uid := b);
      ShiftBetweenLast(p, r.hash, r.signerID, m, r.attachName, r.artifactName, a, b);
      assert |s.uid| < |r.uid|;
    }
  }

  /**
   Under one prefix, whatever it contains: another request has the same text exactly when one of the five text
   fields of this one has a newline.
   */
  lemma NewlineCollides(p: seq<string>, r: VCNSearchRequest)
    ensures (exists s: VCNSearchRequest :: Keyed(s) != Keyed(r) && SearchText(p, s) == SearchText(p, r)) <==> Breaks(r)
  {
    if Breaks(r) {
      var s := Divide(p, r);
    } else {
      LineSafePieces([], r);
      forall s: VCNSearchRequest | SearchText(p, s) == SearchText(p, r) ensures Keyed(s) == Keyed(r) {
        assert SearchPieces(p, r) == p + Fields(r) && SearchPieces(p, s) == p + Fields(s);
        JoinCancel(p, Fields(r), Fields(s), NL);
        JoinSameCount(Fields(r), Fields(s), NL);
        FieldsInjective(s, r);
      }
    }
  }

  /** A newline in the prefix moves a boundary of the prefix list: the same request under another prefix collides. */
  lemma PrefixNewlineCollides(p: seq<string>, r: VCNSearchRequest) returns (q: seq<string>)
    requires !Free(p, NL)
    ensures q != p && SearchText(q, r) == SearchText(p, r)
  {
    var i :| 0 <= i < |p| && NL in p[i];
    var (a, b) := CutFirst(p[i]);
    q := p[..i] + [a, b] + p[i + 1..];
    ShiftInPrefix(p, i, a, b, r.hash, r.signerID, Middle(r), r.attachName, r.artifactName, r.uid);
    assert |q| != |p|;
  }

  /** The hash does not collide on these two texts. */
  predicate NoCollision(sha: string -> Bytes, a: string, b: string) {
    sha(a) == sha(b) ==> a == b
  }

  /** The keys themselves: equal exactly when prefixes and the eleven fields are. */
  lemma SearchKeyInjective(sha: string -> Bytes, p: seq<string>, a: VCNSearchRequest, q: seq<string>,
                           b: VCNSearchRequest)
    requires LineSafe(p, a) && LineSafe(q, b) && NoCollision(sha, SearchText(p, a), SearchText(q, b))
    ensures KeyOf(sha, SearchText(p, a)) == KeyOf(sha, SearchText(q, b)) <==> p == q && Keyed(a) == Keyed(b)
  {
    KeyOfInjective(sha, SearchText(p, a), SearchText(q, b));
    SearchTextInjective(p, a, q, b);
  }

  /* ---------- VCNArtifactsGetRequest ---------- */

  /** The message as it goes over the wire. */
  datatype ArtifactsGetRequest = ArtifactsGetRequest(
    hashes: seq<string>, verify: bool, proveSinceTx: nat, uid: string, signerID: string)

  function ArtifactPieces(hashes: seq<string>, prefix: seq<string>, proveSinceTx: nat): seq<string> {
    hashes + prefix + [Decimal(proveSinceTx)]
  }

  function ArtifactText(prefix: seq<string>, r: ArtifactsGetRequest): string {
    Join(ArtifactPieces(r.hashes, prefix, r.proveSinceTx), NL)
  }

  /** The message as the client holds it; a verified read sets its `proveSinceTx`. */
  class VCNArtifactsGetRequest {
    var hashes: seq<string>
    var verify: bool
    var proveSinceTx: nat
    var uid: string
    var signerID: string

    constructor (r: ArtifactsGetRequest)
      ensures Value() == r
    {
      hashes, verify, proveSinceTx, uid, signerID := r.hashes, r.verify, r.proveSinceTx, r.uid, r.signerID;
    }

    function Value(): ArtifactsGetRequest
      reads this
    {
      ArtifactsGetRequest(hashes, verify, proveSinceTx, uid, signerID)
    }

    method GetKey(sha: string -> Bytes, prefix: seq<string>) returns (key: string)
      ensures key == KeyOf(sha, ArtifactText(prefix, Value()))
    {
      var pieces := hashes;
      pieces := pieces + prefix;
      pieces := pieces + [Decimal(proveSinceTx)];
      key := KeyOf(sha, Join(pieces, NL));
    }
  }

  /**
   The artifact text determines `ProveSinceTx` and the hashes followed by the prefixes; with the number of
   prefixes fixed it determines both lists.
   */
  lemma ArtifactTextInjective(h1: seq<string>, p1: seq<string>, t1: nat, h2: seq<string>, p2: seq<string>, t2: nat)
    requires Free(h1, NL) && Free(p1, NL) && Free(h2, NL) && Free(p2, NL)
    ensures Join(ArtifactPieces(h1, p1, t1), NL) == Join(ArtifactPieces(h2, p2, t2), NL)
       <==> h1 + p1 == h2 + p2 && t1 == t2
    ensures |p1| == |p2| ==> (h1 + p1 == h2 + p2 <==> h1 == h2 && p1 == p2)
  {
    var a, b := ArtifactPieces(h1, p1, t1), ArtifactPieces(h2, p2, t2);
    NumbersAreLineSafe(t1);
    NumbersAreLineSafe(t2);
    JoinInjective(a, b, NL);
    if a == b {
      assert a[..|a| - 1] == h1 + p1 && b[..|b| - 1] == h2 + p2;
      assert a[|a| - 1] == Decimal(t1) && b[|b| - 1] == Decimal(t2);
      DecimalInjective(t1, t2);
    }
    assert Decimal(t1) != "" && Decimal(t2) != "";
    assert a != [""] && b != [""] by {
      assert a[|a| - 1] != "" && b[|b| - 1] != "";
    }
    if |p1| == |p2| && h1 + p1 == h2 + p2 {
      SameCut(h1, p1, h2, p2);
    }
  }

  /** What each line of an artifact's key text holds: the hashes, then the prefixes, then `ProveSinceTx`. */
  lemma ArtifactLines(p: seq<string>, r: ArtifactsGetRequest)
    requires Free(r.hashes, NL) && Free(p, NL)
    ensures var lines, n := Split(ArtifactText(p, r), '\n'), |r.hashes|;
            && |lines| == n + |p| + 1 && lines[..n] == r.hashes && lines[n..n + |p|] == p
            && lines[n + |p|] == Decimal(r.proveSinceTx)
  {
    NumbersAreLineSafe(r.proveSinceTx);
    SplitJoin(ArtifactPieces(r.hashes, p, r.proveSinceTx), NL);
  }

  /** The part of an artifact request that its key speaks about: not `verify`, not the UID, not the signer. */
  function ArtifactKeyed(r: ArtifactsGetRequest): ArtifactsGetRequest {
    r.(verify := false, uid := "", signerID := "")
  }

  /** The keys themselves, under prefixes of one length: equal exactly when prefixes, hashes and `ProveSinceTx` are. */
  lemma ArtifactKeyInjective(sha: string -> Bytes, p: seq<string>, a: ArtifactsGetRequest, q: seq<string>,
                             b: ArtifactsGetRequest)
    requires Free(a.hashes, NL) && Free(p, NL) && Free(b.hashes, NL) && Free(q, NL) && |p| == |q|
    requires NoCollision(sha, ArtifactText(p, a), ArtifactText(q, b))
    ensures KeyOf(sha, ArtifactText(p, a)) == KeyOf(sha, ArtifactText(q, b))
       <==> p == q && ArtifactKeyed(a) == ArtifactKeyed(b)
  {
    KeyOfInjective(sha, ArtifactText(p, a), ArtifactText(q, b));
    ArtifactTextInjective(a.hashes, p, a.proveSinceTx, b.hashes, q, b.proveSinceTx);
  }

  /** Two hashes can be written as one, and one with a newline as two. */
  function Regrouped(hashes: seq<string>): (r: seq<string>)
    requires |hashes| >= 2 || (|hashes| == 1 && NL in hashes[0])
    ensures |r| != |hashes| && r != []
  {
    if |hashes| >= 2 then [hashes[0] + [NL] + hashes[1]] + hashes[2..]
    else var (a, b) := CutFirst(hashes[0]); [a, b]
  }

  lemma RegroupedReadsAlike(pre: seq<string>, hashes: seq<string>, post: seq<string>)
    requires |hashes| >= 2 || (|hashes| == 1 && NL in hashes[0])
    ensures Join(pre + Regrouped(hashes) + post, NL) == Join(pre + hashes + post, NL)
  {
    if |hashes| >= 2 {
      JoinMerge(pre, hashes[0], hashes[1], hashes[2..] + post, NL);
      assert pre + hashes + post == pre + [hashes[0], hashes[1]] + (hashes[2..] + post);
      assert pre + Regrouped(hashes) + post == pre + [hashes[0] + [NL] + hashes[1]] + (hashes[2..] + post);
    } else {
      var (a, b) := CutFirst(hashes[0]);
      JoinMerge(pre, a, b, post, NL);
      assert hashes == [a + [NL] + b];
    }
  }

  /** At most one hash, and no newline: then nothing else can be read into its place. */
  lemma OneHash(h: seq<string>, other: seq<string>)
    requires |h| <= 1 && Free(h, NL) && Seen(other, NL) == Seen(h, NL)
    ensures |other| == |h| && Free(other, NL)
  {
    SeenAtLeast(h, NL);
    SeenAtLeast(other, NL);
  }

  lemma ArtifactTailSeen(p: seq<string>, n: nat)
    ensures Seen(p + [Decimal(n)], NL) == Seen(p, NL) + 1
  {
    NumbersAreLineSafe(n);
    SeenConcat(p, [Decimal(n)], NL);
    SeenAtLeast([Decimal(n)], NL);
  }

  lemma SameLine(x: string, a: string, y: string, b: string)
    requires NL !in x && NL !in y && x + [NL] + a == y + [NL] + b
    ensures x == y && a == b
  {
    SplitFirst(x, a, NL);
    SplitFirst(y, b, NL);
    assert ([x] + Split(a, NL))[0] == ([y] + Split(b, NL))[0];
    SameTail(x + [NL], a, b);
  }

  /** The tails after the hashes read alike, and so do the hashes. */
  lemma SameHeads(h: seq<string>, a: seq<string>, other: seq<string>, b: seq<string>)
    requires |h| <= 1 && |other| == |h| && Free(h, NL) && Free(other, NL) && a != [] && b != []
    requires Join(h + a, NL) == Join(other + b, NL)
    ensures h == other && Join(a, NL) == Join(b, NL)
  {
    if h == [] {
      assert h + a == a && other + b == b;
    } else {
      assert h == [h[0]] && other == [other[0]];
      JoinFirst(h[0], a, NL);
      JoinFirst(other[0], b, NL);
      SameLine(h[0], Join(a, NL), other[0], Join(b, NL));
    }
  }

  /**
   Under one prefix, whatever it contains: another artifact request has the same text exactly when this one has
   two hashes or more, or one with a newline.
   */
  lemma ArtifactCollides(p: seq<string>, r: ArtifactsGetRequest)
    ensures (exists s: ArtifactsGetRequest ::
               ArtifactKeyed(s) != ArtifactKeyed(r) && ArtifactText(p, s) == ArtifactText(p, r))
       <==> |r.hashes| >= 2 || (|r.hashes| == 1 && NL in r.hashes[0])
  {
    var tail := p + [Decimal(r.proveSinceTx)];
    if |r.hashes| >= 2 || (|r.hashes| == 1 && NL in r.hashes[0]) {
      var s := r.(hashes := Regrouped(r.hashes));
      RegroupedReadsAlike([], r.hashes, tail);
      assert ArtifactPieces(r.hashes, p, r.proveSinceTx) == [] + r.hashes + tail;
      assert ArtifactPieces(s.hashes, p, s.proveSinceTx) == [] + s.hashes + tail;
      assert ArtifactText(p, s) == ArtifactText(p, r) && ArtifactKeyed(s).hashes != ArtifactKeyed(r).hashes;
    } else {
      forall s: ArtifactsGetRequest | ArtifactText(p, s) == ArtifactText(p, r)
        ensures ArtifactKeyed(s) == ArtifactKeyed(r)
      {
        OnlyOneArtifact(p, r, s);
      }
    }
  }

  lemma OnlyOneArtifact(p: seq<string>, r: ArtifactsGetRequest, s: ArtifactsGetRequest)
    requires |r.hashes| <= 1 && Free(r.hashes, NL) && ArtifactText(p, s) == ArtifactText(p, r)
    ensures ArtifactKeyed(s) == ArtifactKeyed(r)
  {
    var a, b := p + [Decimal(r.proveSinceTx)], p + [Decimal(s.proveSinceTx)];
    assert ArtifactPieces(r.hashes, p, r.proveSinceTx) == r.hashes + a;
    assert ArtifactPieces(s.hashes, p, s.proveSinceTx) == s.hashes + b;
    SeenConcat(r.hashes, a, NL);
    SeenConcat(s.hashes, b, NL);
    ArtifactTailSeen(p, r.proveSinceTx);
    ArtifactTailSeen(p, s.proveSinceTx);
    OneHash(r.hashes, s.hashes);
    SameHeads(r.hashes, a, s.hashes, b);
    JoinCancel(p, [Decimal(r.proveSinceTx)], [Decimal(s.proveSinceTx)], NL);
    DecimalInjective(r.proveSinceTx, s.proveSinceTx);
  }

  /* ---------- VCNLabelsGetRequest ---------- */

  datatype LabelsGetRequest = LabelsGetRequest(hash: string, signerID: string)

  function Hashes(request: seq<LabelsGetRequest>): (r: seq<string>)
    ensures |r| == |request|
    ensures forall i :: 0 <= i < |r| ==> r[i] == request[i].hash
  {
    seq(|request|, i requires 0 <= i < |request| => request[i].hash)
  }

  function LabelText(prefix: seq<string>, request: seq<LabelsGetRequest>): string {
    Join(prefix + Hashes(request), NL)
  }

  datatype VCNLabelsGetRequest = VCNLabelsGetRequest(request: seq<LabelsGetRequest>) {
    method GetKey(sha: string -> Bytes, prefix: seq<string>) returns (key: string)
      ensures key == KeyOf(sha, LabelText(prefix, request))
    {
      var pieces: seq<string> := [];
      pieces := pieces + prefix;
      for i := 0 to |request|
        invariant pieces == prefix + Hashes(request)[..i]
      {
        pieces := pieces + [request[i].hash];
      }
      assert Hashes(request)[..|request|] == Hashes(request);
      key := KeyOf(sha, Join(pieces, NL));
    }
  }

  /**
   With the number of prefixes fixed, the label text determines prefixes and hashes, except that no piece
   at all and one empty piece give the same text.  The signers are not part of it.
   */
  lemma LabelTextInjective(p1: seq<string>, r1: seq<LabelsGetRequest>, p2: seq<string>, r2: seq<LabelsGetRequest>)
    requires Free(p1 + Hashes(r1), NL) && Free(p2 + Hashes(r2), NL) && |p1| == |p2|
    ensures LabelText(p1, r1) == LabelText(p2, r2)
       <==> || (p1 == p2 && Hashes(r1) == Hashes(r2))
            || (p1 == p2 == [] && Hashes(r1) + Hashes(r2) == [""])
  {
    var a, b := p1 + Hashes(r1), p2 + Hashes(r2);
    JoinInjective(a, b, NL);
    SameCut(p1, Hashes(r1), p2, Hashes(r2));
    if p1 == [] {
      assert a == Hashes(r1) && b == Hashes(r2);
      OneEmptyPiece(a, b);
    }
  }

  /** What each line of a label request's key text holds: the prefixes, then the hashes. */
  lemma LabelLines(p: seq<string>, r: seq<LabelsGetRequest>)
    requires Free(p + Hashes(r), NL) && p + Hashes(r) != []
    ensures var lines := Split(LabelText(p, r), '\n');
            |lines| == |p| + |r| && lines[..|p|] == p && forall i :: 0 <= i < |r| ==> lines[|p| + i] == r[i].hash
  {
    SplitJoin(p + Hashes(r), NL);
  }

  /** The keys themselves, under a common prefix: equal exactly when the hashes are, but for one empty piece. */
  lemma LabelKeyInjective(sha: string -> Bytes, p: seq<string>, r1: seq<LabelsGetRequest>, r2: seq<LabelsGetRequest>)
    requires Free(p + Hashes(r1), NL) && Free(p + Hashes(r2), NL)
    requires NoCollision(sha, LabelText(p, r1), LabelText(p, r2))
    ensures KeyOf(sha, LabelText(p, r1)) == KeyOf(sha, LabelText(p, r2))
       <==> Hashes(r1) == Hashes(r2) || (p == [] && Hashes(r1) + Hashes(r2) == [""])
  {
    KeyOfInjective(sha, LabelText(p, r1), LabelText(p, r2));
    LabelTextInjective(p, r1, p, r2);
  }

  function Unsigned(hashes: seq<string>): (r: seq<LabelsGetRequest>)
    ensures Hashes(r) == hashes
  {
    seq(|hashes|, i requires 0 <= i < |hashes| => LabelsGetRequest(hashes[i], ""))
  }

  /**
   Under one prefix, whatever it contains: other hashes have the same text exactly when these are two or more,
   or one with a newline, or, without prefixes, none or one that is empty.
   */
  lemma LabelCollides(p: seq<string>, r: seq<LabelsGetRequest>)
    ensures (exists s: seq<LabelsGetRequest> :: Hashes(s) != Hashes(r) && LabelText(p, s) == LabelText(p, r))
       <==> |r| >= 2 || (|r| == 1 && NL in r[0].hash) || (p == [] && (r == [] || r[0].hash == ""))
  {
    var h := Hashes(r);
    if |h| >= 2 || (|h| == 1 && NL in h[0]) {
      var s := Unsigned(Regrouped(h));
      RegroupedReadsAlike(p, h, []);
      assert p + h + [] == p + h && p + Hashes(s) + [] == p + Hashes(s);
      assert LabelText(p, s) == LabelText(p, r) && Hashes(s) != Hashes(r);
    } else if p == [] && (r == [] || r[0].hash == "") {
      var s := Unsigned(if r == [] then [""] else []);
      assert p + h == h && p + Hashes(s) == Hashes(s);
      assert LabelText(p, s) == LabelText(p, r) && Hashes(s) != Hashes(r);
    } else {
      forall s: seq<LabelsGetRequest> | LabelText(p, s) == LabelText(p, r) ensures Hashes(s) == Hashes(r) {
        OnlyOneLabel(p, r, s);
      }
    }
  }

  lemma OnlyOneLabel(p: seq<string>, r: seq<LabelsGetRequest>, s: seq<LabelsGetRequest>)
    requires |r| <= 1 && Free(Hashes(r), NL) && LabelText(p, s) == LabelText(p, r)
    requires p == [] ==> r != [] && r[0].hash != ""
    ensures Hashes(s) == Hashes(r)
  {
    var h, g := Hashes(r), Hashes(s);
    if p == [] {
      assert p + h == h && p + g == g;
    }
    assert p + h != [] && p + g != [];
    SeenConcat(p, h, NL);
    SeenConcat(p, g, NL);
    OneHash(h, g);
    if h != [] {
      JoinCancel(p, h, g, NL);
      assert Join(h, NL) == h[0] && Join(g, NL) == g[0];
    }
  }

  lemma SameCut(a: seq<string>, b: seq<string>, c: seq<string>, d: seq<string>)
    requires |a| == |c|
    ensures a + b == c + d <==> a == c && b == d
  {
    if a + b == c + d {
      assert (a + b)[..|a|] == a && (c + d)[..|a|] == c;
      assert (a + b)[|a|..] == b && (c + d)[|a|..] == d;
    }
  }

  lemma OneEmptyPiece(a: seq<string>, b: seq<string>)
    ensures a + b == [""] <==> (a == [] && b == [""]) || (a == [""] && b == [])
  {
    if a + b == [""] {
      assert |a| + |b| == 1;
      assert a == [] ==> a + b == b;
      assert b == [] ==> a + b == a;
    }
  }
}
