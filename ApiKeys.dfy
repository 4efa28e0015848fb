/** API-key authentication: the allow-list built once from `ALLOWED_API_KEYS`
    (`ApiKeyService`) and the guard that takes the key from the `Authorization`
    header and checks it (`ApiKeyGuard`). */
module ApiKeys {
  import opened Outcomes
  import opened JsText

  const MissingKeyMessage: string := "API key is required"
  const InvalidKeyMessage: string := "Invalid API key"

  // ---------------------------------------------------------------- allow-list

  /** The service's readonly `Set`: each allowed key once. A value: nothing can
      change it once it is built. */
  datatype ApiKeyService = ApiKeyService(validApiKeys: seq<string>)

  /** `.map(key => key.trim())`: one entry per part, each trimmed and made only of
      characters of its part. */
  function TrimEach(parts: seq<string>): (r: seq<string>)
    ensures |r| == |parts|
    ensures forall i :: 0 <= i < |parts| ==> r[i] == Trim(parts[i])
    ensures forall i :: 0 <= i < |r| ==> IsTrimmed(r[i])
    ensures forall i, c :: 0 <= i < |r| && c in r[i] ==> c in parts[i]
  {
    TrimKeepsChars(parts);
    seq(|parts|, i requires 0 <= i < |parts| => Trim(parts[i]))
  }

  lemma TrimKeepsChars(parts: seq<string>)
    ensures forall i, c :: 0 <= i < |parts| && c in Trim(parts[i]) ==> c in parts[i]
  {
    forall i | 0 <= i < |parts| {
      TrimCharsFromInput(parts[i]);
    }
  }

  /** The constructor: an unset or empty setting gives the empty set; otherwise
      every comma-separated part, trimmed, is a key. Either way each key is
      listed once, trimmed and free of commas. */
  function NewApiKeyService(allowedApiKeys: Option<string>): (r: ApiKeyService)
    ensures allowedApiKeys.None? || allowedApiKeys == Some("") ==> r.validApiKeys == []
    ensures forall i, j :: 0 <= i < j < |r.validApiKeys| ==> r.validApiKeys[i] != r.validApiKeys[j]
    ensures forall k :: k in r.validApiKeys ==> IsTrimmed(k) && ',' !in k
  {
    if allowedApiKeys.Some? && allowedApiKeys.value != "" then
      ApiKeyService(Distinct(TrimEach(Split(allowedApiKeys.value, ','))))
    else
      ApiKeyService([])
  }

  /** `validateApiKey`: exact, case-sensitive membership. */
  function ValidateApiKey(svc: ApiKeyService, apiKey: string): (b: bool)
    ensures b <==> exists i :: 0 <= i < |svc.validApiKeys| && svc.validApiKeys[i] == apiKey
  {
    apiKey in svc.validApiKeys
  }

  /** `getValidApiKeys`: `Array.from` of the set. */
  function GetValidApiKeys(svc: ApiKeyService): (keys: seq<string>)
    ensures |keys| == |svc.validApiKeys|
    ensures forall k :: k in keys <==> ValidateApiKey(svc, k)
  {
    svc.validApiKeys
  }

  /** No key is accepted when the setting is unset or empty. */
  lemma UnsetAllowListRejectsAll(allowedApiKeys: Option<string>, apiKey: string)
    requires allowedApiKeys.None? || allowedApiKeys == Some("")
    ensures !ValidateApiKey(NewApiKeyService(allowedApiKeys), apiKey)
  {
  }

  /** A key is accepted exactly when it is one of the comma-separated parts of
      the setting, trimmed. */
  lemma AcceptsExactlyTrimmedParts(config: string, apiKey: string)
    requires config != ""
    ensures ValidateApiKey(NewApiKeyService(Some(config)), apiKey)
        <==> exists i :: 0 <= i < |Split(config, ',')| && Trim(Split(config, ',')[i]) == apiKey
  {
    var parts := Split(config, ',');
    var trimmed := TrimEach(parts);
    assert NewApiKeyService(Some(config)).validApiKeys == Distinct(trimmed);
    assert apiKey in Distinct(trimmed) <==> apiKey in trimmed;
    if apiKey in trimmed {
      var i :| 0 <= i < |trimmed| && trimmed[i] == apiKey;
      assert Trim(parts[i]) == apiKey;
      assert Trim(Split(config, ',')[i]) == apiKey;
    }
    if exists i :: 0 <= i < |parts| && Trim(parts[i]) == apiKey {
      var i :| 0 <= i < |parts| && Trim(parts[i]) == apiKey;
      assert trimmed[i] == apiKey && trimmed[i] in trimmed;
      assert apiKey in Distinct(trimmed);
    }
  }

  /** Whitespace around a configured key is ignored: a part `w1 + k + w2` with
      whitespace `w1`, `w2` makes `k` valid. */
  lemma PaddedKeyAccepted(config: string, i: nat, w1: string, k: string, w2: string)
    requires config != "" && i < |Split(config, ',')|
    requires Split(config, ',')[i] == w1 + k + w2
    requires AllWs(w1) && AllWs(w2) && IsTrimmed(k)
    ensures ValidateApiKey(NewApiKeyService(Some(config)), k)
  {
    TrimPadded(w1, k, w2);
    AcceptsExactlyTrimmedParts(config, k);
  }

  /** Every accepted key is trimmed and has no comma in it. */
  lemma AcceptedKeysTrimmedCommaFree(allowedApiKeys: Option<string>, apiKey: string)
    ensures ValidateApiKey(NewApiKeyService(allowedApiKeys), apiKey) ==> IsTrimmed(apiKey) && ',' !in apiKey
  {
    if ValidateApiKey(NewApiKeyService(allowedApiKeys), apiKey) {
      var config := allowedApiKeys.value;
      AcceptsExactlyTrimmedParts(config, apiKey);
      var parts := Split(config, ',');
      var i :| 0 <= i < |parts| && Trim(parts[i]) == apiKey;
      assert ',' !in parts[i] by { assert parts[i] in parts; }
      TrimCharsFromInput(parts[i]);
    }
  }

  /** `getValidApiKeys` lists each accepted key once, and nothing else. */
  lemma ListedKeysAreTheAcceptedOnes(allowedApiKeys: Option<string>)
    ensures var keys := GetValidApiKeys(NewApiKeyService(allowedApiKeys));
      && (forall i, j :: 0 <= i < j < |keys| ==> keys[i] != keys[j])
      && (forall k :: k in keys <==> ValidateApiKey(NewApiKeyService(allowedApiKeys), k))
  {
  }

  // ------------------------------------------------------------------- guard

  const BearerScheme: string := "bearer"
  const ApiKeyScheme: string := "apikey"

  /** ASCII lower case: the canonical form the `i` flag compares ASCII letters by
      (a non-ASCII character never matches an ASCII letter under it). */
  function AsciiLower(c: char): char {
    if 'A' <= c <= 'Z' then (c as int + 32) as char else c
  }

  /** The header starts with `scheme`, compared case-insensitively. */
  predicate SchemeIs(h: string, scheme: string) {
    |scheme| <= |h| && forall i :: 0 <= i < |scheme| ==> AsciiLower(h[i]) == scheme[i]
  }

  /** The length of the whitespace run `\s+` starts by taking (greedily). */
  function WsRun(s: string): (n: nat)
    ensures n <= |s| && AllWs(s[..n])
    ensures n < |s| ==> !IsWs(s[n])
  {
    if s != [] && IsWs(s[0]) then
      assert s[..1 + WsRun(s[1..])] == [s[0]] + s[1..][..WsRun(s[1..])];
      1 + WsRun(s[1..])
    else 0
  }

  /** After the scheme, `\s+(.+)$` matches with `\s+` taking `rest[..j]`. */
  predicate RegexSplit(rest: string, j: int) {
    1 <= j < |rest| && AllWs(rest[..j]) && NoLineTerminator(rest[j..])
  }

  /** The split a backtracking matcher finds first: the one with the longest `\s+`. */
  predicate GreedySplit(rest: string, j: int) {
    RegexSplit(rest, j) && forall j' :: j < j' < |rest| ==> !RegexSplit(rest, j')
  }

  /** Backtracking over `\s+`: try a whitespace run of length `j`, then `j - 1`,
      down to 1, until `(.+)$` matches the remainder. */
  function Backtrack(rest: string, j: nat): (r: Option<string>)
    requires j <= |rest|
    ensures r.Some? ==> r.value != [] && NoLineTerminator(r.value)
    decreases j
  {
    if j == 0 then None
    else if j < |rest| && NoLineTerminator(rest[j..]) then Some(rest[j..])
    else Backtrack(rest, j - 1)
  }

  /** Group 1 of `/^<scheme>\s+(.+)$/i` on `h`, or no match. */
  function MatchScheme(h: string, scheme: string): (r: Option<string>)
    ensures r.Some? ==> r.value != [] && NoLineTerminator(r.value)
  {
    if !SchemeIs(h, scheme) then None
    else
      var rest := h[|scheme|..];
      Backtrack(rest, WsRun(rest))
  }

  /** `extractApiKeyFromHeader`: `bearerMatch?.[1] || apiKeyMatch?.[1] || null`. */
  function ExtractApiKeyFromHeader(authorization: Option<string>): (key: Option<string>)
    ensures authorization.None? || authorization == Some("") ==> key.None?
    ensures key.Some? ==> key.value != [] && NoLineTerminator(key.value)
  {
    if authorization.None? || authorization.value == "" then None
    else
      var bearerMatch := MatchScheme(authorization.value, BearerScheme);
      var apiKeyMatch := MatchScheme(authorization.value, ApiKeyScheme);
      if bearerMatch.Some? && bearerMatch.value != "" then bearerMatch
      else if apiKeyMatch.Some? && apiKeyMatch.value != "" then apiKeyMatch
      else None
  }

  /** `canActivate`: true, or Unauthorized for a missing key or one not on the list. */
  function CanActivate(authorization: Option<string>, svc: ApiKeyService): (r: Result<bool, Failure>)
    ensures r.Ok? ==> r.value
    ensures r == Err(Unauthorized(MissingKeyMessage)) <==> ExtractApiKeyFromHeader(authorization).None?
    ensures r == Err(Unauthorized(InvalidKeyMessage))
        <==> (ExtractApiKeyFromHeader(authorization).Some?
              && !ValidateApiKey(svc, ExtractApiKeyFromHeader(authorization).value))
    ensures r.Ok? <==> (ExtractApiKeyFromHeader(authorization).Some?
                        && ValidateApiKey(svc, ExtractApiKeyFromHeader(authorization).value))
  {
    var apiKey := ExtractApiKeyFromHeader(authorization);
    if apiKey.None? || apiKey.value == "" then Err(Unauthorized(MissingKeyMessage))
    else if !ValidateApiKey(svc, apiKey.value) then Err(Unauthorized(InvalidKeyMessage))
    else Ok(true)
  }

  /** A split never has more whitespace than the leading run. */
  lemma RegexSplitWithinWsRun(rest: string, j: int)
    requires RegexSplit(rest, j)
    ensures j <= WsRun(rest)
  {
    forall i | 0 <= i < j ensures IsWs(rest[i]) {
      assert rest[..j][i] == rest[i];
    }
  }

  lemma {:induction false} BacktrackFindsGreatest(rest: string, j: nat)
    requires j <= WsRun(rest)
    ensures Backtrack(rest, j).None? ==> forall j' :: 0 <= j' <= j ==> !RegexSplit(rest, j')
    ensures Backtrack(rest, j).Some? ==>
      RegexSplit(rest, |rest| - |Backtrack(rest, j).value|)
      && |rest| - |Backtrack(rest, j).value| <= j
      && Backtrack(rest, j).value == rest[|rest| - |Backtrack(rest, j).value|..]
      && forall j' :: |rest| - |Backtrack(rest, j).value| < j' <= j ==> !RegexSplit(rest, j')
    decreases j
  {
    if j > 0 {
      assert AllWs(rest[..j]) by {
        assert rest[..j] == rest[..WsRun(rest)][..j];
      }
      if !(j < |rest| && NoLineTerminator(rest[j..])) {
        BacktrackFindsGreatest(rest, j - 1);
      }
    }
  }

  /** `MatchScheme` is the regular expression: it matches exactly when the scheme
      is there and some split of the rest fits `\s+(.+)$`, and then it captures the
      text after the longest such whitespace run. */
  lemma MatchSchemeIsRegex(h: string, scheme: string)
    ensures MatchScheme(h, scheme).None?
        <==> (!SchemeIs(h, scheme) || forall j :: !RegexSplit(h[|scheme|..], j))
    ensures MatchScheme(h, scheme).Some? ==>
      exists j :: GreedySplit(h[|scheme|..], j) && MatchScheme(h, scheme).value == h[|scheme|..][j..]
  {
    if SchemeIs(h, scheme) {
      var rest := h[|scheme|..];
      BacktrackFindsGreatest(rest, WsRun(rest));
      forall j | RegexSplit(rest, j) ensures j <= WsRun(rest) {
        RegexSplitWithinWsRun(rest, j);
      }
      if MatchScheme(h, scheme).Some? {
        var j := |rest| - |MatchScheme(h, scheme).value|;
        assert GreedySplit(rest, j);
      }
    }
  }

  lemma WsRunOfPadded(w: string, k: string)
    requires AllWs(w) && k != [] && !IsWs(k[0])
    ensures WsRun(w + k) == |w|
    decreases |w|
  {
    if w != [] {
      assert (w + k)[1..] == w[1..] + k;
      WsRunOfPadded(w[1..], k);
    }
  }

  /** `Bearer` or `ApiKey` in any letter case, whitespace, then a token that starts
      with a non-whitespace character and has no line break: the token is the key. */
  lemma TokenAfterSchemeIsKey(h: string, scheme: string, w: string, k: string)
    requires scheme == BearerScheme || scheme == ApiKeyScheme
    requires SchemeIs(h, scheme) && h[|scheme|..] == w + k
    requires w != [] && AllWs(w)
    requires k != [] && !IsWs(k[0]) && NoLineTerminator(k)
    ensures ExtractApiKeyFromHeader(Some(h)) == Some(k)
  {
    WsRunOfPadded(w, k);
    assert (w + k)[|w|..] == k;
    if scheme == ApiKeyScheme {
      assert AsciiLower(h[0]) == 'a';
      assert !SchemeIs(h, BearerScheme);
    }
  }

  /** A header whose scheme is neither `Bearer` nor `ApiKey` gives no key. */
  lemma OtherSchemeGivesNoKey(h: string)
    requires !SchemeIs(h, BearerScheme) && !SchemeIs(h, ApiKeyScheme)
    ensures ExtractApiKeyFromHeader(Some(h)) == None
  {
  }

  /** A scheme followed by nothing that fits `\s+(.+)$` gives no key. */
  lemma SchemeWithoutTokenGivesNoKey(h: string, scheme: string)
    requires scheme == BearerScheme || scheme == ApiKeyScheme
    requires SchemeIs(h, scheme)
    requires forall j :: !RegexSplit(h[|scheme|..], j)
    ensures ExtractApiKeyFromHeader(Some(h)) == None
  {
    MatchSchemeIsRegex(h, scheme);
    if scheme == BearerScheme {
      assert AsciiLower(h[0]) == 'b';
      assert !SchemeIs(h, ApiKeyScheme);
    } else {
      assert AsciiLower(h[0]) == 'a';
      assert !SchemeIs(h, BearerScheme);
    }
  }

  /** Backtracking lets `(.+)` capture whitespace (`"Bearer  "` yields `" "`), but
      such a key is never on the list, whose entries are trimmed: it is refused as
      invalid. */
  lemma BlankKeyIsRefused(authorization: Option<string>, allowedApiKeys: Option<string>)
    requires ExtractApiKeyFromHeader(authorization).Some?
    requires AllWs(ExtractApiKeyFromHeader(authorization).value)
    ensures CanActivate(authorization, NewApiKeyService(allowedApiKeys)) == Err(Unauthorized(InvalidKeyMessage))
  {
    var k := ExtractApiKeyFromHeader(authorization).value;
    AcceptedKeysTrimmedCommaFree(allowedApiKeys, k);
    assert IsWs(k[0]);
  }

  /** The backtracking case on a concrete header. */
  lemma TwoSpacesCaptureOne()
    ensures ExtractApiKeyFromHeader(Some("Bearer  ")) == Some(" ")
  {
    var h := "Bearer  ";
    assert SchemeIs(h, BearerScheme);
    var rest := h[|BearerScheme|..];
    assert rest == "  ";
    assert WsRun(rest) == 2 by {
      assert WsRun(rest[1..][1..]) == 0;
    }
    assert rest[1..] == " ";
  }
}
