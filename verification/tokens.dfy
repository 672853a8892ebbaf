/** Bytes and the single-byte token table (packages/wazeko-protocol/src/tokens.ts). */
module Tokens {

  import opened Options

  type byte = b: int | 0 <= b < 256

  /** A JavaScript string, held as UTF-8; a lone surrogate is held in three bytes like a character. */
  type Text = seq<byte>

  /** Every entry of the table is ASCII (`TableFacts`), so one character is one byte. */
  function Ascii(s: string): Text {
    seq(|s|, i requires 0 <= i < |s| => s[i] as int % 256)
  }

  // The table, cut into six rows to keep proofs about its entries small.
  const ROW_0 := [
    "", "xmlstreamstart", "xmlstreamend", "s.whatsapp.net", "type", "participant", "from"]
  const ROW_1 := [
    "receipt", "to", "ribbon", "status_elapsed", "napi_version", "notify", "messages", "chat"]
  const ROW_2 := [
    "subject", "action", "presence", "response", "resume", "status", "set", "value", "get", "item"]
  const ROW_3 := [
    "preview", "w", "media", "read", "message", "pkmsg", "msg", "raw", "query", "body"]
  const ROW_4 := [
    "result", "media_type", "enc", "enc_v2", "notification", "ack", "call", "relay", "ib", "edge"]
  const ROW_5 := [
    "login", "iq", "ping", "pin", "pong", "config", "user", "group", "account", "auth", "success",
    "failure"]

  const SINGLE_BYTE_TOKENS: seq<string> := ROW_0 + ROW_1 + ROW_2 + ROW_3 + ROW_4 + ROW_5

  /** `getToken`: array indexing, `None` where JavaScript gives `undefined`. */
  function GetToken(index: nat): Option<Text> {
    if index < |SINGLE_BYTE_TOKENS| then Some(Ascii(SINGLE_BYTE_TOKENS[index])) else None
  }

  /** What the inverse map holds for `token` after the first `n` entries were inserted:
      a later entry overwrites an earlier one and the empty string is never inserted. */
  function IndexBelow(token: Text, n: nat): Option<nat> {
    if n == 0 then None
    else if token != [] && GetToken(n - 1) == Some(token) then Some(n - 1)
    else IndexBelow(token, n - 1)
  }

  lemma {:induction false} IndexBelowMeans(token: Text, n: nat)
    ensures var r := IndexBelow(token, n);
            && (r.Some? ==> r.value < n && token != [] && GetToken(r.value) == Some(token))
            && (r.None? && token != [] ==> forall i: nat :: i < n ==> GetToken(i) != Some(token))
  {
    hide GetToken;
    if n > 0 { IndexBelowMeans(token, n - 1); }
  }

  /** `getTokenIndex`. */
  function GetTokenIndex(token: Text): (r: Option<nat>)
    ensures r.Some? ==> r.value < 256 && token != [] && GetToken(r.value) == Some(token)
    ensures r.None? && token != [] ==> forall i: nat :: GetToken(i) != Some(token)
  {
    IndexBelowMeans(token, |SINGLE_BYTE_TOKENS|);
    IndexBelow(token, |SINGLE_BYTE_TOKENS|)
  }

  /** The loop that fills `tokenToIndexMap` when the module is loaded. */
  method BuildTokenMap() returns (tokenToIndex: map<Text, nat>)
    ensures forall t :: if t in tokenToIndex then GetTokenIndex(t) == Some(tokenToIndex[t]) else GetTokenIndex(t).None?
  {
    hide GetToken;
    tokenToIndex := map[];
    for index := 0 to |SINGLE_BYTE_TOKENS|
      invariant forall t ::
                  if t in tokenToIndex then IndexBelow(t, index) == Some(tokenToIndex[t])
                  else IndexBelow(t, index).None?
    {
      var token := Ascii(SINGLE_BYTE_TOKENS[index]);
      assert GetToken(index) == Some(token) by { TokenAt(index); }
      if token != [] {
        tokenToIndex := tokenToIndex[token := index];
      }
    }
  }

  lemma TokenAt(index: nat)
    requires index < |SINGLE_BYTE_TOKENS|
    ensures GetToken(index) == Some(Ascii(SINGLE_BYTE_TOKENS[index]))
  {}

  // ---------------------------------------------------------------- the table is invertible

  ghost predicate Short(ts: seq<string>) {
    forall t :: t in ts ==> |t| <= 16
  }

  ghost predicate Plain(ts: seq<string>) {
    forall t, c :: t in ts && c in t ==> c as int < 128
  }

  ghost predicate Apart(ts: seq<string>, us: seq<string>) {
    forall t, u :: t in ts && u in us ==> t != u
  }

  ghost predicate Distinct(ts: seq<string>) {
    forall i, j :: 0 <= i < j < |ts| ==> ts[i] != ts[j]
  }

  lemma Row0Short() ensures Short(ROW_0) {}
  lemma Row1Short() ensures Short(ROW_1) {}
  lemma Row2Short() ensures Short(ROW_2) {}
  lemma Row3Short() ensures Short(ROW_3) {}
  lemma Row4Short() ensures Short(ROW_4) {}
  lemma Row5Short() ensures Short(ROW_5) {}
  lemma Row0Plain() ensures Plain(ROW_0) {}
  lemma Row0Distinct() ensures Distinct(ROW_0) {}
  lemma Row1Plain() ensures Plain(ROW_1) {}
  lemma Row1Distinct() ensures Distinct(ROW_1) {}
  lemma Row2Plain() ensures Plain(ROW_2) {}
  lemma Row2Distinct() ensures Distinct(ROW_2) {}
  lemma Row3Plain() ensures Plain(ROW_3) {}
  lemma Row3Distinct() ensures Distinct(ROW_3) {}
  lemma Row4Plain() ensures Plain(ROW_4) {}
  lemma Row4Distinct() ensures Distinct(ROW_4) {}
  lemma Row5Plain() ensures Plain(ROW_5) {}
  lemma Row5Distinct() ensures Distinct(ROW_5) {}
  lemma Rows01() ensures Apart(ROW_0, ROW_1) {}
  lemma Rows02() ensures Apart(ROW_0, ROW_2) {}
  lemma Rows03() ensures Apart(ROW_0, ROW_3) {}
  lemma Rows04() ensures Apart(ROW_0, ROW_4) {}
  lemma Rows05() ensures Apart(ROW_0, ROW_5) {}
  lemma Rows12() ensures Apart(ROW_1, ROW_2) {}
  lemma Rows13() ensures Apart(ROW_1, ROW_3) {}
  lemma Rows14() ensures Apart(ROW_1, ROW_4) {}
  lemma Rows15() ensures Apart(ROW_1, ROW_5) {}
  lemma Rows23() ensures Apart(ROW_2, ROW_3) {}
  lemma Rows24() ensures Apart(ROW_2, ROW_4) {}
  lemma Rows25() ensures Apart(ROW_2, ROW_5) {}
  lemma Rows34() ensures Apart(ROW_3, ROW_4) {}
  lemma Rows35() ensures Apart(ROW_3, ROW_5) {}
  lemma Rows45() ensures Apart(ROW_4, ROW_5) {}

  lemma JoinDistinct(ts: seq<string>, us: seq<string>)
    requires Distinct(ts) && Distinct(us) && Apart(ts, us)
    ensures Distinct(ts + us)
  {
    forall i, j | 0 <= i < j < |ts + us| ensures (ts + us)[i] != (ts + us)[j] {
      if i < |ts| <= j { assert ts[i] in ts && us[j - |ts|] in us; }
    }
  }

  /** Another row behind the ones joined so far. */
  lemma Join(ts: seq<string>, us: seq<string>)
    requires Distinct(ts) && Plain(ts) && Short(ts) && Distinct(us) && Plain(us) && Short(us) && Apart(ts, us)
    ensures Distinct(ts + us) && Plain(ts + us) && Short(ts + us)
  {
    JoinDistinct(ts, us);
  }

  lemma JoinApart(ts: seq<string>, us: seq<string>, vs: seq<string>)
    requires Apart(ts, vs) && Apart(us, vs)
    ensures Apart(ts + us, vs)
  {}

  lemma TableFacts()
    ensures Distinct(SINGLE_BYTE_TOKENS) && Plain(SINGLE_BYTE_TOKENS) && Short(SINGLE_BYTE_TOKENS)
  {
    Row0Short(); Row1Short(); Row2Short(); Row3Short(); Row4Short(); Row5Short();
    Row0Plain(); Row1Plain(); Row2Plain(); Row3Plain(); Row4Plain(); Row5Plain();
    Row0Distinct(); Row1Distinct(); Row2Distinct(); Row3Distinct(); Row4Distinct(); Row5Distinct();
    Rows01(); Rows02(); Rows03(); Rows04(); Rows05(); Rows12(); Rows13(); Rows14(); Rows15();
    Rows23(); Rows24(); Rows25(); Rows34(); Rows35(); Rows45();
    hide ROW_0, ROW_1, ROW_2, ROW_3, ROW_4, ROW_5, Distinct, Plain, Short, Apart;
    var a, b, c, d, e, f := ROW_0, ROW_1, ROW_2, ROW_3, ROW_4, ROW_5;
    Join(a, b);
    JoinApart(a, b, c);
    Join(a + b, c);
    JoinApart(a, b, d); JoinApart(a + b, c, d);
    Join(a + b + c, d);
    JoinApart(a, b, e); JoinApart(a + b, c, e); JoinApart(a + b + c, d, e);
    Join(a + b + c + d, e);
    JoinApart(a, b, f); JoinApart(a + b, c, f); JoinApart(a + b + c, d, f); JoinApart(a + b + c + d, e, f);
    Join(a + b + c + d + e, f);
  }

  lemma AsciiInjective(s: string, t: string)
    requires Plain([s]) && Plain([t]) && Ascii(s) == Ascii(t)
    ensures s == t
  {
    assert s in [s] && t in [t];
    assert |s| == |Ascii(s)| == |t|;
    forall i | 0 <= i < |s| ensures s[i] == t[i] {
      assert Ascii(s)[i] == Ascii(t)[i];
      assert s[i] in s && t[i] in t;
    }
  }

  /** The two lookups are inverse on the whole table, except for its empty first entry. */
  lemma TokenInverse(index: nat)
    requires GetToken(index).Some?
    ensures GetTokenIndex(GetToken(index).value) == if GetToken(index).value == [] then None else Some(index)
    ensures |GetToken(index).value| <= 16
  {
    var ts := SINGLE_BYTE_TOKENS;
    TableFacts();
    hide SINGLE_BYTE_TOKENS;
    assert ts[index] in ts;
    var token := GetToken(index).value;
    if token != [] {
      var found := GetTokenIndex(token).value;
      assert ts[found] in ts;
      AsciiInjective(ts[index], ts[found]);
    }
  }

  /** Tokens are ASCII. */
  lemma TokenPlain(t: Text)
    ensures GetTokenIndex(t).Some? ==> forall k :: 0 <= k < |t| ==> t[k] < 128
  {
    TableFacts();
    hide SINGLE_BYTE_TOKENS;
    if GetTokenIndex(t).Some? {
      var token := SINGLE_BYTE_TOKENS[GetTokenIndex(t).value];
      forall k | 0 <= k < |t| ensures t[k] < 128 {
        assert token in SINGLE_BYTE_TOKENS && token[k] in token;
      }
    }
  }

  lemma NotAToken(t: Text, k: nat)
    requires k < |t| && t[k] >= 128
    ensures GetTokenIndex(t).None?
  {
    TokenPlain(t);
    hide GetTokenIndex;
  }
}
