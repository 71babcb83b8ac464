/** `verifyToken`: the Express middleware that guards the teacher routes. It
    reads the `Authorization` header, expects `Bearer <token>`, has the token
    checked, and either answers 401 or stores the decoded claims on the
    request and passes control on. */
module AuthMiddleware {
  import opened Js
  import opened Http

  /** The claims `generateToken` signs and `jwt.verify` decodes (the `iat` and
      `exp` claims are not modelled). */
  datatype Claims = Claims(id: int, usuario: string)

  const MsgSinToken := "No se proporcionó token de autenticación"
  const MsgFormato := "Formato de token inválido"
  const MsgTokenInvalido := "Token inválido o expirado"

  function AsciiLower(c: char): char {
    if 'A' <= c <= 'Z' then (c as int + 32) as char else c
  }

  /** `/^Bearer$/i.test(scheme)`: the whole scheme is "Bearer" up to case. Without
      the `u` flag JavaScript folds case by upper-casing and never lets a
      non-ASCII character match an ASCII one, so only ASCII letters fold. */
  predicate IsBearer(scheme: string)
    ensures IsBearer(scheme) <==>
      |scheme| == 6 && forall i :: 0 <= i < 6 ==> scheme[i] == "bearer"[i] || scheme[i] == "BEARER"[i]
  {
    |scheme| == 6 && forall i :: 0 <= i < 6 ==> AsciiLower(scheme[i]) == "bearer"[i]
  }

  /** What the header yields before the token itself is checked. */
  datatype Credential = NoCredential | Malformed | Presented(token: string)

  /** The header checks: present and non-empty, exactly two parts when split on
      `' '`, the first part the Bearer scheme. */
  function ReadCredential(header: Option<string>): (c: Credential)
    ensures c.NoCredential? <==> header.None? || header.value == ""
    ensures c.Presented? ==>
      |header.value| > 6 && IsBearer(header.value[..6]) && header.value == header.value[..6] + " " + c.token
    ensures c.Presented? ==> ' ' !in c.token
  {
    if header.None? || header.value == "" then NoCredential
    else
      var parts := Split(header.value, ' ');
      if |parts| != 2 then Malformed
      else if !IsBearer(parts[0]) then Malformed
      else
        assert header.value == parts[0] + " " + parts[1] by {
          assert Join(parts, ' ') == parts[0] + [' '] + Join(parts[1..], ' ');
        }
        Presented(parts[1])
  }

  /** Every header of the form `<scheme> <token>`, with the scheme "Bearer" in any
      ASCII case and no space in the token, presents that token. */
  lemma BearerHeader(scheme: string, token: string)
    requires IsBearer(scheme) && ' ' !in token
    ensures ReadCredential(Some(scheme + " " + token)) == Presented(token)
  {
    var parts := [scheme, token];
    assert ' ' !in scheme by {
      forall i | 0 <= i < |scheme|
        ensures scheme[i] != ' '
      {
        assert AsciiLower(scheme[i]) == "bearer"[i];
      }
    }
    assert Join(parts, ' ') == scheme + " " + token by {
      assert parts[1..] == [token];
    }
    SplitJoin(parts, ' ');
  }

  /** The middleware's decision. */
  datatype Outcome = Deny(reply: Reply<()>) | Admit(claims: Claims)

  /** `verifyToken` as a decision: `verify` is `jwt.verify` with the server's
      secret, `None` where it throws (bad signature, expired token, ...). */
  function Authenticate(header: Option<string>, verify: string -> Option<Claims>): (o: Outcome)
    ensures o.Admit? <==> ReadCredential(header).Presented? && verify(ReadCredential(header).token).Some?
    ensures o.Admit? ==> verify(ReadCredential(header).token) == Some(o.claims)
    ensures o.Deny? ==> o.reply.Failure? && o.reply.status == Unauthorized
  {
    match ReadCredential(header)
    case NoCredential => Deny(Failure(Unauthorized, MsgSinToken))
    case Malformed => Deny(Failure(Unauthorized, MsgFormato))
    case Presented(token) =>
      match verify(token)
      case None => Deny(Failure(Unauthorized, MsgTokenInvalido))
      case Some(claims) => Admit(claims)
  }

  /** The part of an Express request the middleware reads and writes; `nextCalls`
      counts the calls of the `next` callback. */
  class Request {
    const authorization: Option<string>
    var docente: Option<Claims>
    var nextCalls: nat

    constructor (authorization: Option<string>)
      ensures this.authorization == authorization && docente == None && nextCalls == 0
    {
      this.authorization := authorization;
      docente := None;
      nextCalls := 0;
    }
  }

  /** Runs the middleware step by step, as `verifyToken` does; its contract is
      that it implements `Authenticate`: an answer is sent (and `next` is not
      called) exactly when `Authenticate` denies; otherwise `req.docente` is set to the decoded
      claims and `next` is called once. */
  method VerifyToken(req: Request, verify: string -> Option<Claims>) returns (sent: Option<Reply<()>>)
    modifies req
    ensures match Authenticate(req.authorization, verify)
      case Admit(claims) =>
        sent == None && req.docente == Some(claims) && req.nextCalls == old(req.nextCalls) + 1
      case Deny(reply) =>
        sent == Some(reply) && req.docente == old(req.docente) && req.nextCalls == old(req.nextCalls)
  {
    var header := req.authorization;
    if header.None? || header.value == "" {
      return Some(Failure(Unauthorized, MsgSinToken));
    }
    var parts := Split(header.value, ' ');
    if |parts| != 2 {
      return Some(Failure(Unauthorized, MsgFormato));
    }
    var scheme, token := parts[0], parts[1];
    if !IsBearer(scheme) {
      return Some(Failure(Unauthorized, MsgFormato));
    }
    var decoded := verify(token);
    if decoded.None? {
      return Some(Failure(Unauthorized, MsgTokenInvalido));
    }
    req.docente := decoded;
    req.nextCalls := req.nextCalls + 1;
    sent := None;
  }
}
