/** The authentication middlewares: `JWTAuth` demands a bearer token and
    answers 401 without one; `JWTOptionalAuth` lets every request through and
    sets the user id only when a valid bearer token is present. Token
    verification is a parameter (`parse`, None for a token that does not
    verify). */
module Middleware {
  import opened Entity

  /** The Authorization scheme word. */
  const Scheme := "Bearer"

  const MsgHeaderRequired := "authorization header is required"
  const MsgBadFormat := "invalid auth header format"
  const MsgInvalidToken := "invalid token"

  /** What happens to the request: a 401 with a JSON error message, or the
      next handler with the user id stored in the context (or nothing
      stored). */
  datatype Outcome = Unauthorized(message: string) | Next(userId: Option<int>)

  /** The pieces of `s` between single spaces (the standard library's split
      on " "): n spaces give n + 1 pieces, empty ones included. */
  function Split(s: string): (parts: seq<string>)
    ensures |parts| >= 1
    ensures forall i :: 0 <= i < |parts| ==> ' ' !in parts[i]
  {
    if s == [] then [""]
    else
      var rest := Split(s[1..]);
      if s[0] == ' ' then [""] + rest
      else [[s[0]] + rest[0]] + rest[1..]
  }

  /** The pieces glued back with single spaces. */
  function JoinWithSpaces(parts: seq<string>): string
    requires |parts| >= 1
  {
    if |parts| == 1 then parts[0] else parts[0] + " " + JoinWithSpaces(parts[1..])
  }

  /** Splitting loses nothing: joining the pieces gives the header back. */
  lemma {:induction false} JoinSplit(s: string)
    ensures JoinWithSpaces(Split(s)) == s
  {
    if s != [] {
      var rest := Split(s[1..]);
      JoinSplit(s[1..]);
      if s[0] == ' ' {
        assert Split(s) == [""] + rest;
        assert ([""] + rest)[1..] == rest;
      } else if |rest| == 1 {
        assert Split(s) == [[s[0]] + rest[0]];
      } else {
        var parts := Split(s);
        assert parts[1..] == rest[1..];
        assert JoinWithSpaces(rest) == rest[0] + " " + JoinWithSpaces(rest[1..]);
      }
    }
  }

  /** A space-free prefix joins the first piece of what follows it. */
  lemma {:induction false} SplitAfterWord(a: string, t: string)
    requires ' ' !in a
    ensures Split(a + t) == [a + Split(t)[0]] + Split(t)[1..]
  {
    if a != [] {
      var s, p := a + t, Split(t);
      assert s[0] == a[0] && s[0] != ' ';
      assert s[1..] == a[1..] + t;
      SplitAfterWord(a[1..], t);
      var rest := Split(s[1..]);
      assert rest == [a[1..] + p[0]] + p[1..];
      assert Split(s) == [[a[0]] + rest[0]] + rest[1..];
      assert [a[0]] + rest[0] == a + p[0];
      assert rest[1..] == p[1..];
    } else {
      assert a + t == t;
      var parts := Split(t);
      assert a + parts[0] == parts[0];
      assert parts == [parts[0]] + parts[1..];
    }
  }

  /** Splitting a word, a space and the rest gives the word first. */
  lemma SplitWordSpace(a: string, t: string)
    requires ' ' !in a
    ensures Split(a + " " + t) == [a] + Split(t)
  {
    SplitAfterWord(a, " " + t);
    assert (" " + t)[1..] == t;
    assert Split(" " + t) == [""] + Split(t);
    assert ([""] + Split(t))[1..] == Split(t);
    assert a + "" == a;
    assert a + " " + t == a + (" " + t);
  }

  /** Splitting undoes joining when no piece holds a space. */
  lemma {:induction false} SplitJoin(parts: seq<string>)
    requires |parts| >= 1
    requires forall i :: 0 <= i < |parts| ==> ' ' !in parts[i]
    ensures Split(JoinWithSpaces(parts)) == parts
  {
    if |parts| == 1 {
      SplitAfterWord(parts[0], "");
      assert parts[0] + "" == parts[0];
    } else {
      SplitJoin(parts[1..]);
      SplitWordSpace(parts[0], JoinWithSpaces(parts[1..]));
    }
  }

  /** The token of a header of exactly two pieces whose first is the scheme
      word. */
  function BearerToken(header: string): (token: Option<string>)
    ensures token.Some? ==> header == Scheme + " " + token.value && ' ' !in token.value
  {
    var parts := Split(header);
    if |parts| != 2 || parts[0] != Scheme then None
    else
      JoinSplit(header);
      assert JoinWithSpaces(parts[1..]) == parts[1];
      Some(parts[1])
  }

  /** A header carries a token exactly when it is "Bearer", one space and a
      token without spaces. */
  lemma BearerTokenExactly(header: string, token: string)
    ensures BearerToken(header) == Some(token) <==> header == Scheme + " " + token && ' ' !in token
  {
    if BearerToken(header) == Some(token) {
      JoinSplit(header);
      var parts := Split(header);
      assert JoinWithSpaces(parts[1..]) == parts[1];
    }
    if header == Scheme + " " + token && ' ' !in token {
      SplitWordSpace(Scheme, token);
      SplitAfterWord(token, "");
      assert token + "" == token;
    }
  }

  /** A header carries a token exactly when it starts with "Bearer " and the
      rest holds no space; the token is that rest. */
  lemma BearerTokenIsSuffix(header: string)
    ensures BearerToken(header).Some? <==> |header| >= 7 && header[..7] == Scheme + " " && ' ' !in header[7..]
    ensures BearerToken(header).Some? ==> BearerToken(header).value == header[7..]
  {
    if BearerToken(header).Some? {
      BearerTokenExactly(header, BearerToken(header).value);
    }
    if |header| >= 7 && header[..7] == Scheme + " " && ' ' !in header[7..] {
      assert header == Scheme + " " + header[7..];
      BearerTokenExactly(header, header[7..]);
    }
  }

  /** Required authentication: a request it lets through always carries a
      user id, and every refusal carries one of the three messages. */
  function JWTAuth(header: string, parse: string -> Option<int>): (r: Outcome)
    ensures r.Next? ==> r.userId.Some?
    ensures r.Unauthorized? ==> r.message in {MsgHeaderRequired, MsgBadFormat, MsgInvalidToken}
  {
    if header == "" then Unauthorized(MsgHeaderRequired)
    else
      match BearerToken(header)
      case None => Unauthorized(MsgBadFormat)
      case Some(token) =>
        match parse(token)
        case None => Unauthorized(MsgInvalidToken)
        case Some(userId) => Next(Some(userId))
  }

  /** Optional authentication: never refuses; a user id is stored only for a
      well-formed bearer header. */
  function JWTOptionalAuth(header: string, parse: string -> Option<int>): (r: Outcome)
    ensures r.Next?
    ensures r.userId.Some? ==> BearerToken(header).Some?
  {
    if header == "" then Next(None)
    else
      match BearerToken(header)
      case None => Next(None)
      case Some(token) => Next(parse(token))
  }

  /** Required authentication passes a request exactly when its header is
      "Bearer ", then a token without spaces that verifies, and then the
      context holds that token's user id. */
  lemma JWTAuthAccepts(header: string, parse: string -> Option<int>)
    ensures JWTAuth(header, parse).Next? <==>
              |header| >= 7 && header[..7] == Scheme + " " && ' ' !in header[7..] && parse(header[7..]).Some?
    ensures JWTAuth(header, parse).Next? ==> JWTAuth(header, parse).userId == parse(header[7..])
  {
    BearerTokenIsSuffix(header);
  }

  /** Optional authentication stores a user id exactly when required
      authentication would have let the request through, with the same id. */
  lemma OptionalAuthAgreesWithRequired(header: string, parse: string -> Option<int>)
    ensures JWTOptionalAuth(header, parse).userId.Some? <==> JWTAuth(header, parse).Next?
    ensures JWTAuth(header, parse).Next? ==> JWTOptionalAuth(header, parse).userId == JWTAuth(header, parse).userId
  {
  }

  /** Two spaces after the scheme word are a malformed header, whatever
      follows. */
  lemma DoubleSpaceIsMalformed(token: string, parse: string -> Option<int>)
    ensures JWTAuth(Scheme + "  " + token, parse) == Unauthorized(MsgBadFormat)
  {
    var header := Scheme + "  " + token;
    BearerTokenIsSuffix(header);
    assert header[7] == ' ';
  }

  /** The scheme word is case-sensitive: "bearer" is a malformed header. */
  lemma LowerCaseSchemeIsMalformed(token: string, parse: string -> Option<int>)
    ensures JWTAuth("bearer " + token, parse) == Unauthorized(MsgBadFormat)
  {
    var header := "bearer " + token;
    BearerTokenIsSuffix(header);
    assert header[0] != Scheme[0];
  }
}
