/** The identity derived from an API key, and the cache slot of an API key.  `sha` stands for SHA-256. */
module ApiKey {
  import opened Wrappers
  import opened ImmuStore
  import opened Text
  import opened Base64

  const API_KEY_SEPARATOR := '.'

  /** The slot of an API key in the shared cache. */
  function ObfuscateApiKey(sha: string -> Bytes, apiKey: string): string { Encode(Std, sha(apiKey)) }

  /** Slots are isolated: two API keys share a slot only if their hashes collide. */
  lemma SlotsIsolated(sha: string -> Bytes, a: string, b: string)
    ensures ObfuscateApiKey(sha, a) == ObfuscateApiKey(sha, b) <==> sha(a) == sha(b)
  {
    EncodeInjective(Std, sha(a), sha(b));
  }

  /** A slot name, for a hash of 32 bytes: 43 characters of the standard alphabet and one padding character. */
  lemma SlotShape(sha: string -> Bytes, apiKey: string)
    requires |sha(apiKey)| == 32
    ensures var slot := ObfuscateApiKey(sha, apiKey);
            |slot| == 44 && slot[43] == '=' && forall i :: 0 <= i < 43 ==> InAlphabet(Std, slot[i])
  {
    EncodedShape(Std, sha(apiKey));
  }

  /**
   The identity computed on connecting: the last piece of the API key is replaced by its hash.  A key
   without separator has none.
   */
  function HashedApiKey(sha: string -> Bytes, apiKey: string): Option<string> {
    var pieces := Split(apiKey, API_KEY_SEPARATOR);
    if apiKey == "" || |pieces| < 2 then None
    else
      var last := |pieces| - 1;
      Some(Join(pieces[..last], API_KEY_SEPARATOR) + [API_KEY_SEPARATOR] + Encode(RawURL, sha(pieces[last])))
  }

  /** A text cut at its last separator. */
  function CutLast(text: string, sep: char): Option<(string, string)> {
    if text == "" then None
    else if text[|text| - 1] == sep then Some((text[..|text| - 1], ""))
    else
      var r := CutLast(text[..|text| - 1], sep);
      if r.None? then None else Some((r.value.0, r.value.1 + [text[|text| - 1]]))
  }

  lemma {:induction false} CutLastIs(front: string, back: string, sep: char)
    requires sep !in back
    ensures CutLast(front + [sep] + back, sep) == Some((front, back))
    decreases |back|
  {
    var text := front + [sep] + back;
    if back == "" {
      assert text[..|text| - 1] == front;
    } else {
      var init := back[..|back| - 1];
      CutLastIs(front, init, sep);
      assert text[..|text| - 1] == front + [sep] + init;
      assert back == init + [back[|back| - 1]];
    }
  }

  lemma {:induction false} CutLastNone(text: string, sep: char)
    ensures CutLast(text, sep).None? <==> sep !in text
    ensures var r := CutLast(text, sep);
            r.Some? ==> sep !in r.value.1 && text == r.value.0 + [sep] + r.value.1
    decreases |text|
  {
    if text != "" {
      CutLastNone(text[..|text| - 1], sep);
      assert text == text[..|text| - 1] + [text[|text| - 1]];
    }
  }

  lemma {:induction false} JoinLast(pieces: seq<string>, last: string, sep: char)
    requires pieces != []
    ensures Join(pieces + [last], sep) == Join(pieces, sep) + [sep] + last
    decreases |pieces|
  {
    if |pieces| == 1 {
      assert (pieces + [last])[1..] == [last];
    } else {
      assert (pieces + [last])[1..] == pieces[1..] + [last];
      JoinLast(pieces[1..], last, sep);
    }
  }

  /**
   Splitting, dropping the last piece and rejoining is cutting at the last separator.  So the identity of
   `signer.secret` is `signer.hash`, where the signer may itself contain separators and the secret does not.
   */
  lemma HashedApiKeyCuts(sha: string -> Bytes, apiKey: string)
    ensures HashedApiKey(sha, apiKey).Some? <==> API_KEY_SEPARATOR in apiKey
    ensures API_KEY_SEPARATOR in apiKey ==>
              var cut := CutLast(apiKey, API_KEY_SEPARATOR);
              && cut.Some?
              && HashedApiKey(sha, apiKey) == Some(cut.value.0 + [API_KEY_SEPARATOR] + Encode(RawURL, sha(cut.value.1)))
  {
    var sep := API_KEY_SEPARATOR;
    var pieces := Split(apiKey, sep);
    JoinSplit(apiKey, sep);
    if |pieces| < 2 {
      assert Join(pieces, sep) == pieces[0];
    } else {
      var last := |pieces| - 1;
      assert pieces == pieces[..last] + [pieces[last]];
      JoinLast(pieces[..last], pieces[last], sep);
      CutLastIs(Join(pieces[..last], sep), pieces[last], sep);
    }
  }

  /** The identity differs from the API key itself, unless the secret is the encoding of its own hash. */
  lemma IdentityDiffers(sha: string -> Bytes, apiKey: string)
    requires API_KEY_SEPARATOR in apiKey
    ensures CutLast(apiKey, API_KEY_SEPARATOR).Some?
    ensures var secret := CutLast(apiKey, API_KEY_SEPARATOR).value.1;
            HashedApiKey(sha, apiKey) == Some(apiKey) <==> Encode(RawURL, sha(secret)) == secret
  {
    HashedApiKeyCuts(sha, apiKey);
    CutLastNone(apiKey, API_KEY_SEPARATOR);
    var (signer, secret) := CutLast(apiKey, API_KEY_SEPARATOR).value;
    SameTail(signer + [API_KEY_SEPARATOR], Encode(RawURL, sha(secret)), secret);
  }

  /** Cutting the identity at its last separator recovers the signer of the API key. */
  lemma SignerRecovered(sha: string -> Bytes, apiKey: string)
    requires API_KEY_SEPARATOR in apiKey
    ensures var key, id := CutLast(apiKey, API_KEY_SEPARATOR), HashedApiKey(sha, apiKey);
            && key.Some? && id.Some?
            && var cut := CutLast(id.value, API_KEY_SEPARATOR);
               cut.Some? && cut.value.0 == key.value.0 && Decode(cut.value.1) == sha(key.value.1)
  {
    HashedApiKeyCuts(sha, apiKey);
    var (signer, secret) := CutLast(apiKey, API_KEY_SEPARATOR).value;
    NoDot(RawURL, sha(secret));
    CutLastIs(signer, Encode(RawURL, sha(secret)), API_KEY_SEPARATOR);
    RoundTrip(RawURL, sha(secret));
  }

  /** Two API keys have one identity exactly when they have the same signer and secrets with the same hash. */
  lemma IdentityInjective(sha: string -> Bytes, a: string, b: string)
    requires API_KEY_SEPARATOR in a && API_KEY_SEPARATOR in b
    ensures CutLast(a, API_KEY_SEPARATOR).Some? && CutLast(b, API_KEY_SEPARATOR).Some?
    ensures HashedApiKey(sha, a) == HashedApiKey(sha, b) <==>
              var (signerA, secretA) := CutLast(a, API_KEY_SEPARATOR).value;
              var (signerB, secretB) := CutLast(b, API_KEY_SEPARATOR).value;
              signerA == signerB && sha(secretA) == sha(secretB)
  {
    SignerRecovered(sha, a);
    SignerRecovered(sha, b);
    HashedApiKeyCuts(sha, a);
    HashedApiKeyCuts(sha, b);
  }

  /** The end of an identity, for a hash of 32 bytes: a separator and 43 characters of the URL alphabet. */
  lemma IdentityShape(sha: string -> Bytes, apiKey: string)
    requires API_KEY_SEPARATOR in apiKey && forall text :: |sha(text)| == 32
    ensures var id := HashedApiKey(sha, apiKey);
            && id.Some? && |id.value| >= 44 && id.value[|id.value| - 44] == '.'
            && forall i :: |id.value| - 43 <= i < |id.value| ==> InAlphabet(RawURL, id.value[i])
  {
    HashedApiKeyCuts(sha, apiKey);
    var (signer, secret) := CutLast(apiKey, API_KEY_SEPARATOR).value;
    EncodedShape(RawURL, sha(secret));
    var id := signer + [API_KEY_SEPARATOR] + Encode(RawURL, sha(secret));
    forall i | |id| - 43 <= i < |id| ensures InAlphabet(RawURL, id[i]) {
      assert id[i] == Encode(RawURL, sha(secret))[i - (|id| - 43)];
    }
  }
}
