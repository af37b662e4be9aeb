/**
 * Google ID-token helpers of the back end (`src/backend/lib/jwt.ts`):
 * base64url normalisation and padding (RFC 4648, sections 5 and 3.2),
 * splitting a JWT into its segments, the certificate cache whose lifetime
 * comes from the `max-age` directive (RFC 9111, section 5.2.2.1), and the
 * checks made on a verified payload (RFC 7519, section 4.1.3). Base64
 * decoding (`atob`), JSON parsing and the signature check itself are
 * parameters; the clock is the `now` argument, in milliseconds.
 */
module Jwt {
  import opened Wrappers
  import opened Text

  // ---------------------------------------------------------------- base64url

  /** `input.replace(/-/g, '+').replace(/_/g, '/')`. */
  function ToBase64(input: string): string
  {
    ReplaceChar(ReplaceChar(input, '-', '+'), '_', '/')
  }

  /** Every '-' becomes '+', every '_' becomes '/', and nothing else changes. */
  lemma ToBase64Chars(input: string)
    ensures |ToBase64(input)| == |input|
    ensures forall i :: 0 <= i < |input| ==>
      ToBase64(input)[i] == (if input[i] == '-' then '+' else if input[i] == '_' then '/' else input[i])
    ensures '-' !in ToBase64(input) && '_' !in ToBase64(input)
  {
    var once := ReplaceChar(input, '-', '+');
    ReplaceCharAt(input, '-', '+');
    ReplaceCharAt(once, '_', '/');
    ReplaceCharRemoves(once, '_', '/');
    forall i | 0 <= i < |ToBase64(input)| ensures ToBase64(input)[i] != '-' {
      assert once[i] != '-';
    }
  }

  function Repeat(c: char, n: nat): (r: string)
    ensures |r| == n && forall i :: 0 <= i < n ==> r[i] == c
  {
    seq(n, _ => c)
  }

  /** `s.padEnd(Math.ceil(s.length / 4) * 4, '=')`. */
  function Pad(s: string): (r: string)
    ensures |r| % 4 == 0 && |s| <= |r| < |s| + 4
    ensures r[..|s|] == s && forall i :: |s| <= i < |r| ==> r[i] == '='
    ensures |s| % 4 == 0 ==> r == s
  {
    var target := (|s| + 3) / 4 * 4;
    s + Repeat('=', target - |s|)
  }

  /** `base64UrlDecode`: normalise, pad, then `atob`, which may throw (`None`). */
  function Base64UrlDecode(input: string, atob: string -> Option<string>): (r: Option<string>)
    ensures '-' !in input && '_' !in input && |input| % 4 == 0 ==> r == atob(input)
  {
    ToBase64Chars(input);
    assert '-' !in input && '_' !in input ==> ToBase64(input) == input;
    atob(Pad(ToBase64(input)))
  }

  // ---------------------------------------------------------------- decodeJwt

  /**
   * `decodeJwt`: decode and parse the first two '.'-separated segments. A
   * token without a '.' has no second segment, and reading it throws.
   */
  function DecodeJwt<J>(token: string, atob: string -> Option<string>, parse: string -> Option<J>): (r: Option<(J, J)>)
    ensures '.' !in token ==> r.None?
  {
    var parts := Split(token, '.');
    assert '.' !in token ==> |parts| == 1 by {
      if '.' !in token {
        SplitNoSep(token, '.');
      }
    }
    if |parts| < 2 then None
    else
      var header := Base64UrlDecode(parts[0], atob);
      var payload := Base64UrlDecode(parts[1], atob);
      if header.None? || payload.None? then None
      else
        var h := parse(header.value);
        var p := parse(payload.value);
        if h.None? || p.None? then None else Some((h.value, p.value))
  }

  /** Only the first two segments matter: the signature and anything after it are ignored. */
  lemma DecodeJwtFirstTwo<J>(header: string, payload: string, rest: string,
                             atob: string -> Option<string>, parse: string -> Option<J>)
    requires '.' !in header && '.' !in payload
    ensures DecodeJwt(header + "." + payload + "." + rest, atob, parse) == DecodeJwt(header + "." + payload, atob, parse)
  {
    SplitAfterPiece(payload, rest, '.');
    SplitAfterPiece(header, payload + "." + rest, '.');
    assert header + "." + payload + "." + rest == header + ['.'] + (payload + "." + rest);
    SplitNoSep(payload, '.');
    SplitAfterPiece(header, payload, '.');
    assert header + "." + payload == header + ['.'] + payload;
  }

  // ---------------------------------------------------------------- certificate cache

  /** The digits at the front of `s`. */
  function DigitPrefix(s: string): (r: string)
    ensures |r| <= |s| && r == s[..|r|]
    ensures forall i :: 0 <= i < |r| ==> IsDigit(r[i])
    ensures |r| < |s| ==> !IsDigit(s[|r|])
  {
    if s != [] && IsDigit(s[0]) then [s[0]] + DigitPrefix(s[1..]) else []
  }

  lemma {:induction false} DigitPrefixOf(d: string, rest: string)
    requires forall i :: 0 <= i < |d| ==> IsDigit(d[i])
    requires rest == [] || !IsDigit(rest[0])
    ensures DigitPrefix(d + rest) == d
  {
    if d != [] {
      assert (d + rest)[1..] == d[1..] + rest;
      DigitPrefixOf(d[1..], rest);
    }
  }

  const MaxAgeDirective := "max-age="

  /** The capture of `/max-age=(\d+)/`: the digits after its leftmost match. */
  function MaxAgeMatch(s: string): (r: Option<string>)
    ensures r.Some? ==> |r.value| > 0 && forall i :: 0 <= i < |r.value| ==> IsDigit(r.value[i])
    ensures r.Some? ==> Contains(s, MaxAgeDirective + r.value)
    decreases |s|
  {
    if StartsWith(s, MaxAgeDirective) && |s| > |MaxAgeDirective| && IsDigit(s[|MaxAgeDirective|]) then
      var d := DigitPrefix(s[|MaxAgeDirective|..]);
      assert s[..|MaxAgeDirective| + |d|] == MaxAgeDirective + d;
      Some(d)
    else if s == [] then None
    else MaxAgeMatch(s[1..])
  }

  /** `max-age=` followed by a digit starts at position i of s: a place `/max-age=(\d+)/` can match. */
  predicate DirectiveAt(s: string, i: int)
  {
    0 <= i && i + |MaxAgeDirective| < |s| && s[i..i + |MaxAgeDirective|] == MaxAgeDirective
    && IsDigit(s[i + |MaxAgeDirective|])
  }

  /** Dropping the first character moves every directive one place to the left. */
  lemma DirectiveShift(s: string, i: int)
    requires s != [] && 0 <= i
    ensures DirectiveAt(s, i + 1) <==> DirectiveAt(s[1..], i)
  {
    if i + 1 + |MaxAgeDirective| < |s| {
      assert s[i + 1..i + 1 + |MaxAgeDirective|] == s[1..][i..i + |MaxAgeDirective|];
    }
  }

  /**
   * The regex finds the directive exactly when the value holds one, and
   * captures the digits at its leftmost occurrence.
   */
  lemma {:induction false} MaxAgeMatchLeftmost(s: string)
    ensures MaxAgeMatch(s).None? <==> forall i :: 0 <= i < |s| ==> !DirectiveAt(s, i)
    ensures MaxAgeMatch(s).Some? ==>
      exists i :: DirectiveAt(s, i) && (forall j :: 0 <= j < i ==> !DirectiveAt(s, j))
        && MaxAgeMatch(s).value == DigitPrefix(s[i + |MaxAgeDirective|..])
    decreases |s|
  {
    if StartsWith(s, MaxAgeDirective) && |s| > |MaxAgeDirective| && IsDigit(s[|MaxAgeDirective|]) {
      assert DirectiveAt(s, 0);
    } else if s != [] {
      assert !DirectiveAt(s, 0);
      MaxAgeMatchLeftmost(s[1..]);
      forall i | 0 <= i
        ensures DirectiveAt(s, i + 1) <==> DirectiveAt(s[1..], i)
      {
        DirectiveShift(s, i);
      }
      if MaxAgeMatch(s).None? {
        forall i | 0 <= i < |s| ensures !DirectiveAt(s, i) {
          if i > 0 {
            assert !DirectiveAt(s[1..], i - 1);
          }
        }
      } else {
        var k :| DirectiveAt(s[1..], k) && (forall j :: 0 <= j < k ==> !DirectiveAt(s[1..], j))
          && MaxAgeMatch(s[1..]).value == DigitPrefix(s[1..][k + |MaxAgeDirective|..]);
        assert s[1..][k + |MaxAgeDirective|..] == s[k + 1 + |MaxAgeDirective|..];
        forall j | 0 <= j < k + 1 ensures !DirectiveAt(s, j) {
          if j > 0 {
            assert !DirectiveAt(s[1..], j - 1);
          }
        }
        assert DirectiveAt(s, k + 1);
      }
    }
  }

  /** An hour, the lifetime when the response gives none. */
  const DefaultLifetime := 3600 * 1000

  /** When fetched certificates stop being used. */
  function Expiry(now: int, cacheControl: Option<string>): (e: int)
    ensures e >= now
  {
    var maxAge := if cacheControl.Some? then MaxAgeMatch(cacheControl.value) else None;
    if maxAge.Some? then now + ParseDecimal(maxAge.value) * 1000 else now + DefaultLifetime
  }

  /** A value starting with the directive and its digits matches at once. */
  lemma MaxAgeMatchFront(d: string, rest: string)
    requires |d| > 0 && forall i :: 0 <= i < |d| ==> IsDigit(d[i])
    requires rest == [] || !IsDigit(rest[0])
    ensures MaxAgeMatch(MaxAgeDirective + d + rest) == Some(d)
  {
    var s := MaxAgeDirective + d + rest;
    assert s[..|MaxAgeDirective|] == MaxAgeDirective;
    assert s[|MaxAgeDirective|] == d[0];
    assert s[|MaxAgeDirective|..] == d + rest;
    DigitPrefixOf(d, rest);
  }

  /** The capture at a directive with none before it. */
  lemma MaxAgeMatchAt(s: string, i: int)
    requires DirectiveAt(s, i) && forall j :: 0 <= j < i ==> !DirectiveAt(s, j)
    ensures MaxAgeMatch(s) == Some(DigitPrefix(s[i + |MaxAgeDirective|..]))
  {
    MaxAgeMatchLeftmost(s);
    var k :| DirectiveAt(s, k) && (forall j :: 0 <= j < k ==> !DirectiveAt(s, j))
      && MaxAgeMatch(s).value == DigitPrefix(s[k + |MaxAgeDirective|..]);
    assert !(k < i) && !(i < k);
  }

  /** `max-age=` and a digit written after any prefix is a directive at the prefix's end. */
  lemma DirectiveAfter(pre: string, d: string, rest: string)
    requires |d| > 0 && IsDigit(d[0])
    ensures DirectiveAt(pre + MaxAgeDirective + d + rest, |pre|)
    ensures (pre + MaxAgeDirective + d + rest)[|pre| + |MaxAgeDirective|..] == d + rest
  {
    var s := pre + MaxAgeDirective + d + rest;
    assert s == pre + (MaxAgeDirective + d + rest);
    assert s[|pre|..] == MaxAgeDirective + d + rest;
    assert s[|pre|..|pre| + |MaxAgeDirective|] == MaxAgeDirective;
    assert s[|pre| + |MaxAgeDirective|] == d[0];
  }

  /**
   * A header whose first directive is `max-age=N`, whatever precedes it,
   * keeps the certificates N seconds; a header with no `max-age` directive,
   * or no header, keeps them an hour.
   */
  lemma ExpiryFromMaxAge(now: int, pre: string, n: nat, rest: string)
    requires rest == [] || !IsDigit(rest[0])
    requires forall j :: 0 <= j < |pre| ==> !DirectiveAt(pre + MaxAgeDirective + NatToString(n) + rest, j)
    ensures Expiry(now, Some(pre + MaxAgeDirective + NatToString(n) + rest)) == now + n * 1000
    ensures forall h :: (forall i :: 0 <= i < |h| ==> !DirectiveAt(h, i)) ==> Expiry(now, Some(h)) == now + DefaultLifetime
    ensures Expiry(now, None) == now + DefaultLifetime
  {
    var digits := NatToString(n);
    assert forall i :: 0 <= i < |digits| ==> IsDigit(digits[i]);
    DirectiveAfter(pre, digits, rest);
    MaxAgeMatchAt(pre + MaxAgeDirective + digits + rest, |pre|);
    DigitPrefixOf(digits, rest);
    ParseDecimalNatToString(n);
    forall h | forall i :: 0 <= i < |h| ==> !DirectiveAt(h, i)
      ensures Expiry(now, Some(h)) == now + DefaultLifetime
    {
      MaxAgeMatchLeftmost(h);
    }
  }

  /** Google's own form, `public, max-age=N, …`, keeps the certificates N seconds. */
  lemma ExpiryPublicMaxAge(now: int, n: nat, rest: string)
    requires rest == [] || !IsDigit(rest[0])
    ensures Expiry(now, Some("public, " + MaxAgeDirective + NatToString(n) + rest)) == now + n * 1000
  {
    var pre := "public, ";
    var s := pre + MaxAgeDirective + NatToString(n) + rest;
    forall j | 0 <= j < |pre| ensures !DirectiveAt(s, j) {
      assert s[j] == pre[j];
    }
    ExpiryFromMaxAge(now, pre, n, rest);
  }

  datatype GoogleKey = GoogleKey(kid: string, n: string, e: string, alg: string)

  /** The certificate endpoint's answer: status, `cache-control` header and keys. */
  datatype CertsResponse = CertsResponse(ok: bool, cacheControl: Option<string>, keys: seq<GoogleKey>)

  /** The payload fields the checks read. */
  datatype Payload = Payload(iss: string, azp: string, aud: string, sub: string, email: Option<string>, email_verified: bool)

  const InvalidToken := "Invalid token"

  /** The audience check: `aud` or `azp` names this client. */
  predicate AudienceOk(p: Payload, clientId: string)
  {
    p.aud == clientId || p.azp == clientId
  }

  /** The checks after the signature: audience, then a present email must be verified. */
  function CheckPayload(p: Payload, clientId: string): (r: Result<Payload, string>)
    ensures r.Ok? ==> r.value == p && AudienceOk(p, clientId)
    ensures !AudienceOk(p, clientId) ==> r == Err("Invalid audience")
    ensures p.email.Some? && p.email.value != "" && !p.email_verified ==> r.Err?
    ensures AudienceOk(p, clientId) && !(p.email.Some? && p.email.value != "" && !p.email_verified) ==> r == Ok(p)
    ensures r.Err? ==> r.error == "Invalid audience" || r.error == "Email not verified"
  {
    if !AudienceOk(p, clientId) then Err("Invalid audience")
    else if p.email.Some? && p.email.value != "" && !p.email_verified then Err("Email not verified")
    else Ok(p)
  }

  class GoogleVerifier {
    /** `certsCache`: the keys and their expiry. */
    var cache: Option<(seq<GoogleKey>, int)>
    /** How many times the certificate endpoint was fetched. */
    var fetches: nat

    constructor()
      ensures cache.None? && fetches == 0
    {
      cache := None;
      fetches := 0;
    }

    predicate Fresh(now: int)
      reads this
    {
      cache.Some? && cache.value.1 > now
    }

    /**
     * `fetchGoogleCerts`: a cache entry that has not expired is returned
     * without fetching; otherwise the endpoint is fetched, and a good answer
     * replaces the cache. `None` is the thrown error.
     */
    method FetchGoogleCerts(now: int, response: CertsResponse) returns (r: Option<seq<GoogleKey>>)
      modifies this
      ensures old(Fresh(now)) ==> r == Some(old(cache).value.0) && cache == old(cache) && fetches == old(fetches)
      ensures !old(Fresh(now)) ==> fetches == old(fetches) + 1
      ensures !old(Fresh(now)) && !response.ok ==> r.None? && cache == old(cache)
      ensures !old(Fresh(now)) && response.ok ==>
        r == Some(response.keys) && cache == Some((response.keys, Expiry(now, response.cacheControl)))
    {
      if cache.Some? && cache.value.1 > now {
        return Some(cache.value.0);
      }
      fetches := fetches + 1;
      if !response.ok {
        return None;
      }
      var expires := Expiry(now, response.cacheControl);
      cache := Some((response.keys, expires));
      return Some(response.keys);
    }

    /**
     * `verifyGoogleToken`: fetch the keys, verify the signature and claims
     * (`verified`, `None` when the library rejects the token), then check the
     * payload. Every failure is reported as the one error "Invalid token".
     */
    method VerifyGoogleToken(clientId: string, now: int, response: CertsResponse, verified: Option<Payload>)
      returns (r: Result<Payload, string>)
      modifies this
      ensures r.Err? ==> r.error == InvalidToken
      ensures r.Ok? <==> (old(Fresh(now)) || response.ok) && verified.Some? && CheckPayload(verified.value, clientId).Ok?
      ensures r.Ok? ==> r.value == verified.value && AudienceOk(r.value, clientId)
      ensures old(Fresh(now)) ==> cache == old(cache) && fetches == old(fetches)
      ensures !old(Fresh(now)) ==> fetches == old(fetches) + 1
      ensures !old(Fresh(now)) && !response.ok ==> cache == old(cache)
      ensures !old(Fresh(now)) && response.ok ==> cache == Some((response.keys, Expiry(now, response.cacheControl)))
    {
      var keys := FetchGoogleCerts(now, response);
      if keys.None? || verified.None? {
        return Err(InvalidToken);
      }
      var checked := CheckPayload(verified.value, clientId);
      if checked.Err? {
        return Err(InvalidToken);
      }
      return checked;
    }
  }
}
