/**
 * `authenticateToken` of node/router.js: the token is the second space-separated
 * field of the Authorization header. A missing header, or one without a non-empty
 * second field, is refused with 401. Otherwise the signature check decides
 * between 403 and handing the request on to `next`.
 */
module Auth {
  import opened Wrappers
  import opened Strings

  /** How the request ends: a refusal with a status code, or `next()` with the verified token. */
  datatype AuthOutcome = Refused(status: int) | Proceed(token: string)

  /**
   * `authHeader && authHeader.split(' ')[1]`, with a falsy result (an absent
   * header, an empty header, a missing second field, or an empty one) as `None`.
   */
  function BearerToken(header: Option<string>): (t: Option<string>)
    ensures t.Some? ==> t.value != [] && ' ' !in t.value
    ensures header.None? || header.value == [] ==> t.None?
  {
    match header
    case None => None
    case Some(h) =>
      if h == [] then None
      else
        var fields := Split(h, ' ');
        if |fields| < 2 || fields[1] == [] then None else Some(fields[1])
  }

  /** The header is a scheme, one space, the token, and then nothing or a space and anything. */
  predicate SecondField(h: string, scheme: string, t: string, rest: string) {
    && ' ' !in scheme
    && ' ' !in t
    && h == scheme + " " + t + rest
    && (rest == [] || rest[0] == ' ')
  }

  /** The extracted token is exactly the non-empty text between the first and the second space. */
  lemma BearerTokenMeaning(h: string, t: string)
    ensures BearerToken(Some(h)) == Some(t) <==>
      t != [] && exists scheme, rest :: SecondField(h, scheme, t, rest)
  {
    if BearerToken(Some(h)) == Some(t) {
      TokenHasLayout(h, t);
    }
    if t != [] && exists scheme, rest :: SecondField(h, scheme, t, rest) {
      var scheme, rest :| SecondField(h, scheme, t, rest);
      LayoutGivesToken(h, scheme, t, rest);
    }
  }

  lemma TokenHasLayout(h: string, t: string)
    requires BearerToken(Some(h)) == Some(t)
    ensures exists scheme, rest :: SecondField(h, scheme, t, rest)
  {
    var fields := Split(h, ' ');
    assert |fields| >= 2 && fields[1] == t;
    var rest := AfterSecond(fields);
    JoinAtSecond(fields);
    assert SecondField(h, fields[0], t, rest);
  }

  /** What follows the second field when the fields are joined back with spaces. */
  function AfterSecond(fields: seq<string>): string
    requires |fields| >= 2
  {
    if |fields| == 2 then [] else " " + Join(fields[2..], ' ')
  }

  /** Joined with spaces, the fields read: the first, a space, the second, and then the rest. */
  lemma JoinAtSecond(fields: seq<string>)
    requires |fields| >= 2
    ensures Join(fields, ' ') == fields[0] + " " + fields[1] + AfterSecond(fields)
    ensures AfterSecond(fields) == [] || AfterSecond(fields)[0] == ' '
  {
    var after := AfterSecond(fields);
    assert Join(fields, ' ') == fields[0] + " " + Join(fields[1..], ' ');
    assert Join(fields[1..], ' ') == fields[1] + after by {
      if |fields| == 2 {
        assert fields[1] + [] == fields[1];
      } else {
        assert fields[1..][1..] == fields[2..];
      }
    }
    Regroup(fields[0] + " ", fields[1], after);
  }

  lemma Regroup(a: string, b: string, c: string)
    ensures a + (b + c) == a + b + c
  {
  }

  lemma LayoutGivesToken(h: string, scheme: string, t: string, rest: string)
    requires t != [] && SecondField(h, scheme, t, rest)
    ensures BearerToken(Some(h)) == Some(t)
  {
    if rest == [] {
      assert h == scheme + [' '] + t;
      SplitCons(scheme, ' ', t);
      assert Split(t, ' ') == [t];
    } else {
      var tail := rest[1..];
      assert rest == [' '] + tail;
      assert h == scheme + [' '] + (t + [' '] + tail);
      SplitCons(scheme, ' ', t + [' '] + tail);
      SplitCons(t, ' ', tail);
    }
  }

  /**
   * The decision of `authenticateToken`, with the signature check `valid` as a
   * parameter: 401 without a token, 403 when the check fails, otherwise `next`.
   */
  function Authenticate(header: Option<string>, valid: string -> bool): (r: AuthOutcome)
    ensures r == Refused(401) <==> BearerToken(header).None?
    ensures r == Refused(403) <==> BearerToken(header).Some? && !valid(BearerToken(header).value)
    ensures r.Proceed? <==> BearerToken(header).Some? && valid(BearerToken(header).value)
    ensures r.Proceed? ==> Some(r.token) == BearerToken(header)
  {
    match BearerToken(header)
    case None => Refused(401)
    case Some(token) => if valid(token) then Proceed(token) else Refused(403)
  }

  /** A header of the form "scheme token", as a client sends it, reaches the signature check. */
  lemma WellFormedHeader(scheme: string, token: string, valid: string -> bool)
    requires ' ' !in scheme && ' ' !in token && token != []
    ensures BearerToken(Some(scheme + " " + token)) == Some(token)
    ensures Authenticate(Some(scheme + " " + token), valid) != Refused(401)
  {
    assert SecondField(scheme + " " + token, scheme, token, []);
    BearerTokenMeaning(scheme + " " + token, token);
  }
}
