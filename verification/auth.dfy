/** The gate in front of protected routes (src/middleware/authMiddleware.ts
    and the header-only variant src/middleware/authMiddleware.js): which token
    is taken from the request, and whether the request is refused or passed
    on with a user. Token verification itself is an oracle. */
module Auth {
  import opened Base
  import opened Store

  /** What verification of a token yields: its payload, or an error. */
  datatype Verdict = Verified(user: User) | Rejected

  /** Token verification (`jwt.verify` with the configured secret), taken as
      given. The argument is absent when the program passes `undefined`. */
  type Verifier = Option<string> -> Verdict

  /** The gate's decision: refuse with a status, or call `next()` once with
      `req.user` set to the given user (left unset for `None`). */
  datatype Gate = Deny(status: nat) | Proceed(user: Option<User>)

  /** `req.user?.id`: the id of the user, absent without one. */
  function IdOf(user: Option<User>): Option<UserId> {
    if user.Some? then Some(user.value.id) else None
  }

  /** The `if (!userId)` test passes: `req.user?.id` is truthy, so a user is
      set and has a non-empty id. */
  function SignedIn(user: Option<User>): (b: bool)
    ensures b <==> user.Some? && user.value.id != ""
  {
    Truthy(IdOf(user))
  }

  /** The position of the first occurrence of `sep` in `s`. */
  function FirstSep(s: string, sep: char): (r: Option<nat>)
    ensures r.None? <==> sep !in s
    ensures r.Some? ==> r.value < |s| && s[r.value] == sep && sep !in s[..r.value]
  {
    var r := FirstIndex(s, (c: char) => c == sep);
    if r.Some? then
      assert forall j :: 0 <= j < r.value ==> s[..r.value][j] == s[j];
      r
    else r
  }

  /** `header.split(' ')[1]`: the text after the first space up to the next
      space or the end, `undefined` when the header has no space. */
  function HeaderToken(header: string): (t: Option<string>)
    ensures t.Some? <==> ' ' in header
    ensures t.Some? ==> ' ' !in t.value
  {
    match FirstSep(header, ' ')
    case None => None
    case Some(i) =>
      var rest := header[i + 1..];
      match FirstSep(rest, ' ')
      case None => Some(rest)
      case Some(j) => Some(rest[..j])
  }

  /** The token is the second space-separated piece: after a first piece
      without spaces and one space, it is the longest space-free prefix of
      what follows. */
  lemma SecondPiece(first: string, more: string)
    requires ' ' !in first
    ensures HeaderToken(first + " " + more).Some?
    ensures var t := HeaderToken(first + " " + more).value;
            && |t| <= |more| && t == more[..|t|]
            && (|t| == |more| || more[|t|] == ' ')
  {
    var h := first + " " + more;
    assert h[|first|] == ' ';
    var i := FirstSep(h, ' ').value;
    assert h[..|first|] == first;
    assert i == |first|;
    assert h[i + 1..] == more;
  }

  /** The common `Bearer <token>` header yields exactly its token. */
  lemma BearerHeaderYieldsToken(token: string)
    requires ' ' !in token
    ensures HeaderToken("Bearer " + token) == Some(token)
  {
    SecondPiece("Bearer", token);
    assert "Bearer" + " " + token == "Bearer " + token;
    var t := HeaderToken("Bearer " + token).value;
    assert token[..|token|] == token;
  }

  /** Where the token of a request comes from: a non-empty Authorization
      header wins and yields its second space-separated piece; only without
      one is the `jwtToken` query parameter used. */
  function SelectToken(header: Option<string>, query: Option<string>): (t: Option<string>)
    ensures Truthy(header) ==> t == HeaderToken(header.value)
    ensures !Truthy(header) && Truthy(query) ==> t == query
    ensures !Truthy(header) && !Truthy(query) ==> !Truthy(t)
  {
    if Truthy(header) then HeaderToken(header.value)
    else if Truthy(query) then query
    else None
  }

  /** `authMiddleware`: no usable token is a 401, a token that fails
      verification a 403, and a verified one sets the user and continues. */
  function AuthGate(header: Option<string>, query: Option<string>, verify: Verifier): (g: Gate)
    ensures g == Deny(401) || g == Deny(403) || g.Proceed?
    ensures g == Deny(401) <==> !Truthy(SelectToken(header, query))
    ensures g == Deny(403) <==> Truthy(SelectToken(header, query)) && verify(SelectToken(header, query)).Rejected?
    ensures g.Proceed? <==> Truthy(SelectToken(header, query)) && verify(SelectToken(header, query)).Verified?
    ensures g.Proceed? ==> g.user == Some(verify(SelectToken(header, query)).user)
  {
    var token := SelectToken(header, query);
    if !Truthy(token) then Deny(401)
    else
      match verify(token)
      case Rejected => Deny(403)
      case Verified(u) => Proceed(Some(u))
  }

  /** `optionalAuthMiddleware`: always continues; the user is set exactly
      when a usable token verifies. */
  function OptionalAuthGate(header: Option<string>, query: Option<string>, verify: Verifier): (g: Gate)
    ensures g.Proceed?
    ensures g.user.Some? <==> Truthy(SelectToken(header, query)) && verify(SelectToken(header, query)).Verified?
    ensures g.user.Some? ==> g.user.value == verify(SelectToken(header, query)).user
  {
    var token := SelectToken(header, query);
    if Truthy(token) && verify(token).Verified? then Proceed(Some(verify(token).user))
    else Proceed(None)
  }

  /** The compiled `authMiddleware`: only the header is read; without one the
      request is a 401, and otherwise its second piece goes to verification
      unchecked, even when it is missing. */
  function HeaderOnlyAuthGate(header: Option<string>, verify: Verifier): (g: Gate)
    ensures g == Deny(401) || g == Deny(403) || g.Proceed?
    ensures g == Deny(401) <==> !Truthy(header)
    ensures g == Deny(403) <==> Truthy(header) && verify(HeaderToken(header.value)).Rejected?
    ensures g.Proceed? ==> Truthy(header) && g.user == Some(verify(HeaderToken(header.value)).user)
  {
    if !Truthy(header) then Deny(401)
    else
      match verify(HeaderToken(header.value))
      case Rejected => Deny(403)
      case Verified(u) => Proceed(Some(u))
  }

  /** The compiled `optionalAuthMiddleware`: always continues; the user is
      set exactly when a header is present and verification succeeds. */
  function HeaderOnlyOptionalAuthGate(header: Option<string>, verify: Verifier): (g: Gate)
    ensures g.Proceed?
    ensures g.user.Some? <==> Truthy(header) && verify(HeaderToken(header.value)).Verified?
    ensures g.user.Some? ==> g.user.value == verify(HeaderToken(header.value)).user
  {
    if Truthy(header) && verify(HeaderToken(header.value)).Verified? then
      Proceed(Some(verify(HeaderToken(header.value)).user))
    else Proceed(None)
  }

  /** With a non-empty header the query token is never consulted, even when
      the header has no second piece. */
  lemma HeaderWinsOverQuery(header: string, q1: Option<string>, q2: Option<string>, verify: Verifier)
    requires header != ""
    ensures AuthGate(Some(header), q1, verify) == AuthGate(Some(header), q2, verify)
    ensures OptionalAuthGate(Some(header), q1, verify) == OptionalAuthGate(Some(header), q2, verify)
    ensures ' ' !in header ==> AuthGate(Some(header), q1, verify) == Deny(401)
  {
  }

  /** The optional gate passes on exactly the user the strict gate would,
      and passes on no user where the strict gate refuses. */
  lemma OptionalGateFollowsStrictGate(header: Option<string>, query: Option<string>, verify: Verifier)
    ensures OptionalAuthGate(header, query, verify) ==
              (match AuthGate(header, query, verify)
               case Proceed(u) => Proceed(u)
               case Deny(_) => Proceed(None))
    ensures HeaderOnlyOptionalAuthGate(header, verify) ==
              (match HeaderOnlyAuthGate(header, verify)
               case Proceed(u) => Proceed(u)
               case Deny(_) => Proceed(None))
  {
  }

  /** The two variants agree whenever the header carries a non-empty token;
      they part only on a header without one, where the first refuses with
      401 and the compiled one leaves the decision to verification. */
  lemma VariantsAgreeOnWellFormedHeader(header: string, query: Option<string>, verify: Verifier)
    requires Truthy(HeaderToken(header))
    ensures header != ""
    ensures AuthGate(Some(header), query, verify) == HeaderOnlyAuthGate(Some(header), verify)
  {
  }
}
