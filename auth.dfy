/**
 * The authentication middleware `authenticateToken`: the token is the second
 * space-separated piece of the `authorization` header, and the request gets
 * through only when the token verifies.
 */
module Auth {
  import opened Wrappers
  import opened Crypto

  /** JavaScript's `s.split(sep)` for a one-character separator (no limit). */
  function Split(s: string, sep: char): (parts: seq<string>)
    ensures |parts| >= 1
    ensures forall i | 0 <= i < |parts| :: sep !in parts[i]
    ensures |parts| > 1 <==> sep in s
  {
    if s == [] then [[]]
    else
      var rest := Split(s[1..], sep);
      if s[0] == sep then [[]] + rest
      else [[s[0]] + rest[0]] + rest[1..]
  }

  /** JavaScript's `parts.join(sep)`. */
  function Join(parts: seq<string>, sep: char): string
    requires |parts| >= 1
  {
    if |parts| == 1 then parts[0] else parts[0] + [sep] + Join(parts[1..], sep)
  }

  /** Joining the pieces of a split gives back the original string. */
  lemma {:induction false} JoinSplit(s: string, sep: char)
    ensures Join(Split(s, sep), sep) == s
  {
    if s != [] {
      JoinSplit(s[1..], sep);
      var rest := Split(s[1..], sep);
      if s[0] != sep && |rest| > 1 {
        assert Join(rest, sep) == rest[0] + [sep] + Join(rest[1..], sep);
        assert Split(s, sep)[1..] == rest[1..];
      }
    }
  }

  /** A piece free of the separator, then the separator, splits off first. */
  lemma {:induction false} SplitAfterPiece(piece: string, sep: char, tail: string)
    requires sep !in piece
    ensures Split(piece + [sep] + tail, sep) == [piece] + Split(tail, sep)
  {
    var s := piece + [sep] + tail;
    if piece == [] {
      assert s[1..] == tail;
    } else {
      assert s[1..] == piece[1..] + [sep] + tail;
      SplitAfterPiece(piece[1..], sep, tail);
      assert [s[0]] + piece[1..] == piece;
    }
  }

  /** Splitting a join of separator-free pieces gives back the pieces. */
  lemma {:induction false} SplitJoin(parts: seq<string>, sep: char)
    requires |parts| >= 1
    requires forall i | 0 <= i < |parts| :: sep !in parts[i]
    ensures Split(Join(parts, sep), sep) == parts
  {
    if |parts| == 1 {
      var p := Split(parts[0], sep);
      JoinSplit(parts[0], sep);
      assert |p| == 1;
    } else {
      SplitJoin(parts[1..], sep);
      SplitAfterPiece(parts[0], sep, Join(parts[1..], sep));
      assert [parts[0]] + parts[1..] == parts;
    }
  }

  /**
   * `authHeader && authHeader.split(' ')[1]`: `None` stands for the
   * `undefined` that `token == null` catches. An absent header short-circuits
   * to `undefined`; an empty header is falsy too, so the expression yields the
   * empty string itself, which is not null; a header with no space has no
   * second piece.
   */
  function BearerToken(header: Option<string>): (token: Option<string>)
    ensures token.None? <==> header.None? || (header.value != [] && ' ' !in header.value)
    ensures token.Some? ==> ' ' !in token.value
  {
    match header
    case None => None
    case Some(h) =>
      if h == [] then Some([])
      else
        var parts := Split(h, ' ');
        if |parts| > 1 then Some(parts[1]) else None
  }

  /**
   * The token is the first space-free piece after the first space, whatever
   * the first word of the header is.
   */
  lemma TokenAfterFirstWord(scheme: string, rest: string)
    requires ' ' !in scheme
    ensures BearerToken(Some(scheme + " " + rest)) == Some(Split(rest, ' ')[0])
  {
    SplitAfterPiece(scheme, ' ', rest);
  }

  /** The first word of the header is never checked. */
  lemma SchemeIgnored(scheme1: string, scheme2: string, rest: string)
    requires ' ' !in scheme1 && ' ' !in scheme2
    ensures BearerToken(Some(scheme1 + " " + rest)) == BearerToken(Some(scheme2 + " " + rest))
  {
    TokenAfterFirstWord(scheme1, rest);
    TokenAfterFirstWord(scheme2, rest);
  }

  /** `Bearer <token>` yields the token, and so does any further text after a space. */
  lemma BearerTokenOf(scheme: string, token: string, trailer: Option<string>)
    requires ' ' !in scheme && ' ' !in token
    ensures var h := if trailer.Some? then scheme + " " + token + " " + trailer.value
                     else scheme + " " + token;
            BearerToken(Some(h)) == Some(token)
  {
    var rest := if trailer.Some? then token + " " + trailer.value else token;
    assert (if trailer.Some? then scheme + " " + token + " " + trailer.value
            else scheme + " " + token) == scheme + " " + rest;
    TokenAfterFirstWord(scheme, rest);
    if trailer.Some? {
      assert rest == token + [' '] + trailer.value;
      SplitAfterPiece(token, ' ', trailer.value);
    } else {
      JoinSplit(token, ' ');
    }
  }

  /** What the middleware decides: 401, 403, or let the request through. */
  datatype Decision = Unauthenticated | Forbidden | Authenticated(user: Claims)

  /** `authenticateToken`: the identity is the verified claims of the token. */
  function Authenticate(header: Option<string>, jwt: Jwt): (d: Decision)
    ensures d.Unauthenticated? <==> header.None? || (header.value != [] && ' ' !in header.value)
    ensures d.Forbidden? <==> BearerToken(header).Some? && jwt.verify(BearerToken(header).value).None?
    ensures d.Authenticated? ==> jwt.verify(BearerToken(header).value) == Some(d.user)
  {
    match BearerToken(header)
    case None => Unauthenticated
    case Some(token) =>
      match jwt.verify(token)
      case None => Forbidden
      case Some(claims) => Authenticated(claims)
  }

  /** A token the backend signed lets its claims through as the identity. */
  lemma SignedTokenAuthenticates(jwt: Jwt, claims: Claims)
    requires JwtSound(jwt)
    ensures Authenticate(Some("Bearer " + jwt.sign(claims)), jwt) == Authenticated(claims)
  {
    var token := jwt.sign(claims);
    assert ' ' !in token;
    assert ' ' !in "Bearer";
    assert "Bearer " + token == "Bearer" + " " + token;
    BearerTokenOf("Bearer", token, None);
  }

  /**
   * A header whose first space is followed by another space (`Bearer  x`),
   * or by nothing in an untrimmed value, carries a present but empty token:
   * 403, not 401.
   */
  lemma EmptyTokenForbidden(scheme: string, rest: string, jwt: Jwt)
    requires ' ' !in scheme && RejectsEmpty(jwt)
    requires rest == [] || rest[0] == ' '
    ensures Authenticate(Some(scheme + " " + rest), jwt) == Forbidden
  {
    TokenAfterFirstWord(scheme, rest);
  }

  /** An empty header value is not treated as absent: it is 403, not 401. */
  lemma EmptyHeaderForbidden(jwt: Jwt)
    requires RejectsEmpty(jwt)
    ensures Authenticate(Some(""), jwt) == Forbidden
  {
  }
}
