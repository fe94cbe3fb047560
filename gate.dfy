/**
 * The bearer-token gate (`verifyToken` in app.js): the header is split on the
 * single character ' ' and its second piece goes to token verification.
 * Token verification (jsonwebtoken's `verify` with the server secret and the
 * one-hour expiry) is a parameter: it maps the piece, possibly absent, to the
 * decoded user id or to `None` on any failure.
 */
module Gate {
  import opened Wrappers
  import opened Http

  /** The pieces of JavaScript's `s.split(" ")`: n spaces give n + 1 pieces, empty ones included. */
  function Split(s: string): (pieces: seq<string>)
    ensures |pieces| >= 1
    ensures forall k :: 0 <= k < |pieces| ==> ' ' !in pieces[k]
  {
    if s == [] then [""]
    else
      var rest := Split(s[1..]);
      if s[0] == ' ' then [""] + rest
      else [[s[0]] + rest[0]] + rest[1..]
  }

  /** JavaScript's `pieces.join(" ")`, the inverse of `Split`. */
  function Join(pieces: seq<string>): string
    requires |pieces| >= 1
  {
    if |pieces| == 1 then pieces[0] else pieces[0] + " " + Join(pieces[1..])
  }

  /** Joining the pieces of a split gives back the string. */
  lemma {:induction false} JoinOfSplit(s: string)
    ensures Join(Split(s)) == s
  {
    if s != [] {
      var rest := Split(s[1..]);
      JoinOfSplit(s[1..]);
      if s[0] == ' ' {
        assert ([""] + rest)[1..] == rest;
      } else if |rest| > 1 {
        var pieces := [[s[0]] + rest[0]] + rest[1..];
        assert pieces[1..] == rest[1..];
        assert Join(pieces) == [s[0]] + (rest[0] + " " + Join(rest[1..]));
      }
      assert s == [s[0]] + s[1..];
    }
  }

  /** A space-free prefix glues onto the first piece of what follows it. */
  lemma {:induction false} SplitAfterWord(w: string, s: string)
    requires ' ' !in w
    ensures Split(w + s) == [w + Split(s)[0]] + Split(s)[1..]
  {
    if w != [] {
      SplitAfterWord(w[1..], s);
      var tail := Split(s);
      var rest := Split(w[1..] + s);
      assert (w + s)[1..] == w[1..] + s;
      assert (w + s)[0] == w[0] != ' ';
      assert Split(w + s) == [[w[0]] + rest[0]] + rest[1..];
      assert rest[0] == w[1..] + tail[0] && rest[1..] == tail[1..];
      assert [w[0]] + (w[1..] + tail[0]) == w + tail[0];
    } else {
      var pieces := Split(s);
      assert w + s == s;
      assert w + pieces[0] == pieces[0];
      assert pieces == [pieces[0]] + pieces[1..];
    }
  }

  /** A string beginning with a space splits into an empty piece and the rest's pieces. */
  lemma SplitAfterSpace(s: string)
    ensures Split(" " + s) == [""] + Split(s)
  {
    assert (" " + s)[1..] == s;
  }

  /** Splitting space-free pieces joined by single spaces gives back the pieces. */
  lemma {:induction false} SplitOfJoin(pieces: seq<string>)
    requires |pieces| >= 1
    requires forall k :: 0 <= k < |pieces| ==> ' ' !in pieces[k]
    ensures Split(Join(pieces)) == pieces
  {
    if |pieces| == 1 {
      SplitAfterWord(pieces[0], "");
      assert pieces[0] + "" == pieces[0];
    } else {
      var tail := Join(pieces[1..]);
      SplitOfJoin(pieces[1..]);
      SplitAfterWord(pieces[0], " " + tail);
      SplitAfterSpace(tail);
      assert pieces[0] + " " + tail == pieces[0] + (" " + tail);
      assert Split(" " + tail)[0] == "";
      assert Split(" " + tail)[1..] == pieces[1..];
      assert pieces[0] + "" == pieces[0];
      assert pieces == [pieces[0]] + pieces[1..];
    }
  }

  /** A string splits into a single piece exactly when it has no space. */
  lemma SplitSingle(s: string)
    ensures |Split(s)| == 1 <==> ' ' !in s
  {
    JoinOfSplit(s);
    if ' ' !in s {
      SplitAfterWord(s, "");
      assert s + "" == s;
    }
  }

  /** `header.split(" ")[1]`: `None` stands for JavaScript's `undefined`, which happens exactly when there is no space. */
  function SecondPiece(header: string): (piece: Option<string>)
    ensures piece == None <==> ' ' !in header
    ensures piece.Some? ==> ' ' !in piece.value
  {
    SplitSingle(header);
    var pieces := Split(header);
    if |pieces| >= 2 then Some(pieces[1]) else None
  }

  /**
   * The second piece of `scheme + " " + token + rest` is `token` when neither
   * `scheme` nor `token` holds a space and `rest` is empty or starts a new piece.
   */
  lemma SecondPieceOf(scheme: string, token: string, rest: string)
    requires ' ' !in scheme && ' ' !in token
    requires rest == "" || rest[0] == ' '
    ensures SecondPiece(scheme + " " + token + rest) == Some(token)
  {
    assert scheme + " " + token + rest == scheme + (" " + (token + rest));
    SplitAfterWord(scheme, " " + (token + rest));
    SplitAfterSpace(token + rest);
    SplitAfterWord(token, rest);
    if rest != "" {
      assert rest == " " + rest[1..];
      SplitAfterSpace(rest[1..]);
    } else {
      assert Split(rest) == [""];
    }
    assert Split(rest)[0] == "";
    assert token + "" == token;
    assert scheme + "" == scheme;
  }

  /** What the gate decides: reject with a status and message, or let the handler run as `userId`. */
  datatype Outcome = Rejected(status: int, message: string) | Authorized(userId: int)

  /**
   * `verifyToken`: a missing or empty header (JavaScript-falsy) is 403; otherwise
   * the second piece is verified, a failure is 401 and a success authorizes the
   * decoded id.
   */
  function VerifyToken(header: Option<string>, verify: Option<string> -> Option<int>): (g: Outcome)
    ensures g.Rejected? ==>
      g == Rejected(Forbidden, TokenRequired) || g == Rejected(Unauthorized, TokenInvalid)
    ensures g == Rejected(Forbidden, TokenRequired) <==> header == None || header == Some("")
    ensures g == Rejected(Unauthorized, TokenInvalid) <==>
      header.Some? && header.value != "" && verify(SecondPiece(header.value)).None?
    ensures g.Authorized? ==>
      header.Some? && header.value != "" && verify(SecondPiece(header.value)) == Some(g.userId)
  {
    if header == None || header == Some("") then Rejected(Forbidden, TokenRequired)
    else match verify(SecondPiece(header.value))
      case None => Rejected(Unauthorized, TokenInvalid)
      case Some(id) => Authorized(id)
  }

  /** A `Bearer <token>` header whose token verifies to `id` lets the handler run as `id`. */
  lemma BearerHeaderAuthorizes(token: string, id: int, verify: Option<string> -> Option<int>)
    requires ' ' !in token
    requires verify(Some(token)) == Some(id)
    ensures VerifyToken(Some("Bearer " + token), verify) == Authorized(id)
  {
    SecondPieceOf("Bearer", token, "");
    assert "Bearer " + token == "Bearer" + " " + token + "";
  }

  /** A non-empty header without a space hands `undefined` to verification. */
  lemma HeaderWithoutSpace(header: string, verify: Option<string> -> Option<int>)
    requires header != "" && ' ' !in header
    ensures VerifyToken(Some(header), verify) ==
      if verify(None).None? then Rejected(Unauthorized, TokenInvalid) else Authorized(verify(None).value)
  {
  }

  /** With two spaces after the scheme the verified piece is the empty string, not the token. */
  lemma DoubleSpaceHeader(token: string, verify: Option<string> -> Option<int>)
    ensures VerifyToken(Some("Bearer  " + token), verify) ==
      if verify(Some("")).None? then Rejected(Unauthorized, TokenInvalid) else Authorized(verify(Some("")).value)
  {
    assert "Bearer  " + token == "Bearer" + " " + "" + (" " + token);
    SecondPieceOf("Bearer", "", " " + token);
  }
}
