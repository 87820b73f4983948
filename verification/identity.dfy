/** Request identity: a verified bearer token when there is one, otherwise
    the unauthenticated `userId` query parameter, otherwise user 1.

    Token verification is library code (a signed, time-stamped payload);
    it is a parameter here: `verify(token, maxAge)` is the token's `uid`
    claim, or `None` when the signature is bad, the token is older than
    `maxAge` seconds, or the payload cannot be read. */
module Identity {
  import opened Values

  const BearerPrefix := "Bearer "

  /** Seven days, in seconds. */
  const TokenMaxAge := 60 * 60 * 24 * 7

  predicate StartsWith(s: string, prefix: string) {
    |prefix| <= |s| && s[..|prefix|] == prefix
  }

  /** `auth[7:].strip()`. */
  function TokenOf(authorization: string): string
    requires StartsWith(authorization, BearerPrefix)
  {
    Strip(authorization[|BearerPrefix|..])
  }

  /** `_uid_from_bearer`: no id unless the Authorization header starts with
      exactly "Bearer "; then the verified token's `uid` claim through `int()`,
      with every failure read as no id. */
  function UidFromBearer(authorization: string, verify: (string, int) -> Option<Value>): (r: Option<int>)
    ensures !StartsWith(authorization, BearerPrefix) ==> r == None
    ensures r.Some? ==>
      && StartsWith(authorization, BearerPrefix)
      && verify(TokenOf(authorization), TokenMaxAge).Some?
      && PyInt(verify(TokenOf(authorization), TokenMaxAge).value) == r
    ensures StartsWith(authorization, BearerPrefix) && verify(TokenOf(authorization), TokenMaxAge).Some? ==>
      r == PyInt(verify(TokenOf(authorization), TokenMaxAge).value)
    ensures StartsWith(authorization, BearerPrefix) && verify(TokenOf(authorization), TokenMaxAge).None? ==>
      r == None
  {
    if !StartsWith(authorization, BearerPrefix) then None
    else match verify(TokenOf(authorization), TokenMaxAge)
      case None => None
      case Some(claim) => PyInt(claim)
  }

  /** `int(request.args.get("userId", "1"))`, with any failure read as 1. */
  function FallbackUid(userIdArg: Option<string>): (r: int)
    ensures userIdArg.None? ==> r == 1
    ensures userIdArg.Some? && PyInt(Str(userIdArg.value)).Some? ==> r == PyInt(Str(userIdArg.value)).value
    ensures userIdArg.Some? && PyInt(Str(userIdArg.value)).None? ==> r == 1
  {
    var arg := if userIdArg.Some? then userIdArg.value else "1";
    match PyInt(Str(arg))
    case Some(n) => n
    case None => 1
  }

  /** `get_user_id`: never fails.  The absent Authorization header reads as "". */
  function GetUserId(authorization: string, userIdArg: Option<string>,
                     verify: (string, int) -> Option<Value>): (r: int)
    ensures UidFromBearer(authorization, verify).Some? ==> r == UidFromBearer(authorization, verify).value
    ensures UidFromBearer(authorization, verify).None? ==> r == FallbackUid(userIdArg)
  {
    match UidFromBearer(authorization, verify)
    case Some(uid) => uid
    case None => FallbackUid(userIdArg)
  }

  /** A token whose verified claim is `uid`, sent as "Bearer <token>",
      is read as `uid`. */
  lemma BearerTokenClaim(token: string, uid: int, verify: (string, int) -> Option<Value>)
    requires Trimmed(token)
    requires verify(token, TokenMaxAge) == Some(Num(uid as real))
    ensures UidFromBearer(BearerPrefix + token, verify) == Some(uid)
  {
    var header := BearerPrefix + token;
    assert header[..|BearerPrefix|] == BearerPrefix;
    assert header[|BearerPrefix|..] == token;
    TruncateInt(uid);
  }

  /** A token whose verified claim is `uid`, sent as "Bearer <token>",
      resolves to `uid` whatever the query string says. */
  lemma SignedTokenResolves(token: string, uid: int, userIdArg: Option<string>,
                            verify: (string, int) -> Option<Value>)
    requires Trimmed(token)
    requires verify(token, TokenMaxAge) == Some(Num(uid as real))
    ensures GetUserId(BearerPrefix + token, userIdArg, verify) == uid
  {
    BearerTokenClaim(token, uid, verify);
  }

  /** Without the exact, case-sensitive "Bearer " prefix the token is never
      looked at: identity comes from the query parameter or defaults to 1. */
  lemma NoBearerFallsBack(authorization: string, userIdArg: Option<string>,
                          verify: (string, int) -> Option<Value>)
    requires !StartsWith(authorization, BearerPrefix)
    ensures GetUserId(authorization, userIdArg, verify) == FallbackUid(userIdArg)
    ensures userIdArg.None? ==> GetUserId(authorization, userIdArg, verify) == 1
  {
  }

  /** A lower-case scheme is not a bearer header. */
  lemma LowerCaseSchemeIgnored(token: string, verify: (string, int) -> Option<Value>)
    ensures UidFromBearer("bearer " + token, verify) == None
  {
    var header := "bearer " + token;
    assert header[0] == 'b' != BearerPrefix[0];
  }

  /** Without a bearer header, a `userId` parameter holding an optionally
      signed, grouped digit run with any surrounding whitespace resolves to
      that number, zero and negative numbers included. */
  lemma QueryParameterDigits(lead: string, sign: string, d: string, trail: string,
                             verify: (string, int) -> Option<Value>)
    requires forall k :: 0 <= k < |lead| ==> IsSpace(lead[k])
    requires forall k :: 0 <= k < |trail| ==> IsSpace(trail[k])
    requires sign == "" || sign == "+" || sign == "-"
    requires Grouped(d)
    ensures var n := DigitsValue(Ungroup(d)) as int;
      GetUserId("", Some(lead + sign + d + trail), verify) == if sign == "-" then -n else n
  {
    PyIntOfDigits(lead, sign, d, trail);
  }

  /** `?userId=1_0` resolves to 10, as `int("1_0")` does. */
  lemma GroupedQueryParameter(verify: (string, int) -> Option<Value>)
    ensures GetUserId("", Some("1_0"), verify) == 10
  {
    assert Grouped("1_0") by {
      assert "1_0"[2..] == "0";
    }
    assert Ungroup("1_0") == "10" by {
      assert "1_0"[2..] == "0";
    }
    assert DigitsValue("10") == 10 by {
      assert "10"[..1] == "1" && "1"[..0] == "";
    }
    QueryParameterDigits("", "", "1_0", "", verify);
    assert "" + "" + "1_0" + "" == "1_0";
  }

  /** `?userId=42` with no bearer header resolves to 42. */
  lemma NumericQueryParameter(verify: (string, int) -> Option<Value>)
    ensures GetUserId("", Some("42"), verify) == 42
  {
    assert Trimmed("42") && Strip("42") == "42";
    assert Unsigned("42") == ("42", false);
    assert AllDigits("42");
    assert "42"[..1] == "4" && "4"[..0] == "";
    assert DigitsValue("42") == DigitsValue("4") * 10 + 2;
  }

  /** `?userId=1.5` is not an integer literal, so it resolves to user 1. */
  lemma DecimalQueryParameter(verify: (string, int) -> Option<Value>)
    ensures GetUserId("", Some("1.5"), verify) == 1
  {
    PyIntRejectsPoint();
  }

  /** Only a signed grouped digit run in `userId` can resolve to anything
      but user 1 when no token is given. */
  lemma QueryParameterShape(arg: string, verify: (string, int) -> Option<Value>)
    requires GetUserId("", Some(arg), verify) != 1
    ensures exists sign, d :: (sign == "" || sign == "+" || sign == "-") && Grouped(d) && Strip(arg) == sign + d
  {
    PyIntAccepts(arg);
  }

  /** A parameter `int()` rejects resolves to user 1. */
  lemma MalformedQueryParameter(verify: (string, int) -> Option<Value>)
    ensures GetUserId("", Some("me"), verify) == 1
  {
    assert Trimmed("me") && Strip("me") == "me";
    assert Unsigned("me") == ("me", false);
    assert !IsDigit("me"[0]);
  }
}
