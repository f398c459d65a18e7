/**
 * The request handlers' own logic: page-number parsing, the session cookie
 * (encoding a signed token and checking one), the two input patterns, and the
 * validation that registration and sign-in run before they touch a response.
 */
module Handlers {
  import opened Prelude
  import opened Text
  import opened Models
  import opened Values
  import opened WebFrame

  /** Name of the session cookie. */
  const COOKIE_NAME: string := "awesession"

  /** The value `signout` writes into the session cookie (with max_age 0). */
  const DELETED_COOKIE: string := "-deleted-"

  /** The lifetime, in seconds, of the cookie registration and sign-in set. */
  const SESSION_MAX_AGE: int := 86400

  // ================================================================ get_page_index

  /** `get_page_index`: `int(page_str)` when it parses and is at least 1, otherwise 1. */
  function GetPageIndex(pageStr: string): (p: int)
    ensures p >= 1
  {
    var parsed := ParseInt(pageStr);
    var p := if parsed.Some? then parsed.value else 1;
    if p < 1 then 1 else p
  }

  /** The page index is the parsed number when that is at least 1, and 1 in every other case. */
  lemma PageIndexCases(pageStr: string)
    ensures ParseInt(pageStr).Some? && ParseInt(pageStr).value >= 1 ==> GetPageIndex(pageStr) == ParseInt(pageStr).value
    ensures ParseInt(pageStr).None? ==> GetPageIndex(pageStr) == 1
    ensures ParseInt(pageStr).Some? && ParseInt(pageStr).value < 1 ==> GetPageIndex(pageStr) == 1
  {
  }

  /** Rendering any integer and reading it back as a page index clamps it at 1. */
  lemma PageIndexOfNumber(n: int)
    ensures GetPageIndex(IntToString(n)) == if n >= 1 then n else 1
  {
    ParseIntOfIntToString(n);
  }

  /** Input without a single decimal digit, such as "abc" or "", is page 1. */
  lemma PageIndexOfNonNumeric(pageStr: string)
    requires forall k :: 0 <= k < |pageStr| ==> !IsDigit(pageStr[k])
    ensures GetPageIndex(pageStr) == 1
  {
    ParseIntNeedsDigit(pageStr);
  }

  /**
   * A page string holding one of U+001C to U+001F is page 1, even where `strip`
   * would leave digits: `int()` does not skip those characters.
   */
  lemma PageIndexWithSeparator(pageStr: string, k: nat)
    requires k < |pageStr| && IsSeparator(pageStr[k])
    ensures GetPageIndex(pageStr) == 1
  {
    SeparatorFailsInt(pageStr, k);
  }

  // ================================================================ the session cookie

  /** The signature of a token: the hex SHA-1 of "id-passwd-expires-secret" in UTF-8. */
  function Signature(id: string, passwd: string, expires: string, secret: string, sha1: Sha1): (h: string)
    ensures |h| == 40 && forall i :: 0 <= i < |h| ==> IsLowerHex(h[i])
  {
    HexDigest(sha1(Utf8(id + "-" + passwd + "-" + expires + "-" + secret)))
  }

  /**
   * `user2cookie(user, max_age)` at clock reading `now` (whole seconds):
   * "id-expires-signature" with `expires = now + max_age`.
   */
  function User2Cookie(u: User, maxAge: int, now: int, secret: string, sha1: Sha1): (c: string)
    ensures |c| == |u.id| + |IntToString(now + maxAge)| + 42
    ensures c[..|u.id|] == u.id && c[|u.id|] == '-'
    ensures c[|u.id| + 1..|c| - 41] == IntToString(now + maxAge) && c[|c| - 41] == '-'
    ensures c[|c| - 40..] == Signature(u.id, u.passwd, IntToString(now + maxAge), secret, sha1)
  {
    var expires := IntToString(now + maxAge);
    var sig := Signature(u.id, u.passwd, expires, secret, sha1);
    Join3(u.id, expires, sig, '-');
    Join([u.id, expires, sig], '-')
  }

  /**
   * `cookie2user(cookie_str)` at clock reading `now`, with `find` the lookup of a
   * user by id. None for an empty token, a token that does not split on '-' into
   * three parts, an expiry that is not an integer (the ValueError caught), an
   * expiry strictly before `now`, an unknown id, or a signature that does not
   * match; otherwise the user found, with its password masked.
   */
  function Cookie2User(cookie: string, now: int, find: string -> Option<User>, secret: string, sha1: Sha1): (r: Option<User>)
    ensures r.Some? <==>
              && cookie != ""
              && |Split(cookie, '-')| == 3
              && ParseInt(Split(cookie, '-')[1]).Some?
              && ParseInt(Split(cookie, '-')[1]).value >= now
              && find(Split(cookie, '-')[0]).Some?
              && Split(cookie, '-')[2] == Signature(Split(cookie, '-')[0], find(Split(cookie, '-')[0]).value.passwd,
                                                    Split(cookie, '-')[1], secret, sha1)
    ensures r.Some? ==> r.value == find(Split(cookie, '-')[0]).value.(passwd := "*****")
  {
    if cookie == "" then None
    else
      var parts := Split(cookie, '-');
      if |parts| != 3 then None
      else
        var uid, expires, sig := parts[0], parts[1], parts[2];
        var expiry := ParseInt(expires);
        if expiry.None? then None
        else if expiry.value < now then None
        else
          var user := find(uid);
          if user.None? then None
          else if sig != Signature(uid, user.value.passwd, expires, secret, sha1) then None
          else Some(user.value.(passwd := "*****"))
  }

  /** A token for an id without '-' and a non-negative expiry splits back into its three fields. */
  lemma CookieFields(u: User, maxAge: int, now: int, secret: string, sha1: Sha1)
    requires '-' !in u.id
    requires now + maxAge >= 0
    ensures var expires := IntToString(now + maxAge);
            && User2Cookie(u, maxAge, now, secret, sha1) != ""
            && Split(User2Cookie(u, maxAge, now, secret, sha1), '-')
               == [u.id, expires, Signature(u.id, u.passwd, expires, secret, sha1)]
  {
    var expires := IntToString(now + maxAge);
    DigitsAreHex(expires);
    TokenFields(u.id, expires, Signature(u.id, u.passwd, expires, secret, sha1));
  }

  lemma DigitsAreHex(s: string)
    requires AllDigits(s)
    ensures forall i :: 0 <= i < |s| ==> IsLowerHex(s[i])
  {
  }

  /** Three fields joined by '-' split back into those fields when the last two are hex digits. */
  lemma TokenFields(id: string, expires: string, sig: string)
    requires '-' !in id
    requires forall i :: 0 <= i < |expires| ==> IsLowerHex(expires[i])
    requires forall i :: 0 <= i < |sig| ==> IsLowerHex(sig[i])
    ensures Join([id, expires, sig], '-') != ""
    ensures Split(Join([id, expires, sig], '-'), '-') == [id, expires, sig]
  {
    Join3(id, expires, sig, '-');
    HexHasNoDash(expires);
    HexHasNoDash(sig);
    SplitThree(id, expires, sig, '-');
  }

  lemma HexHasNoDash(s: string)
    requires forall i :: 0 <= i < |s| ==> IsLowerHex(s[i])
    ensures '-' !in s
  {
  }

  /** A token that splits into an id, an unexpired integer expiry and the matching signature is accepted. */
  lemma TokenAccepted(cookie: string, id: string, expires: string, sig: string, e: int,
                      now: int, find: string -> Option<User>, secret: string, sha1: Sha1)
    requires cookie != "" && Split(cookie, '-') == [id, expires, sig] && ParseInt(expires) == Some(e)
    requires now <= e && find(id).Some? && sig == Signature(id, find(id).value.passwd, expires, secret, sha1)
    ensures Cookie2User(cookie, now, find, secret, sha1) == Some(find(id).value.(passwd := "*****"))
  {
  }

  /** A token that splits into three fields whose integer expiry lies before `now` is refused. */
  lemma TokenExpired(cookie: string, id: string, expires: string, sig: string, e: int,
                     now: int, find: string -> Option<User>, secret: string, sha1: Sha1)
    requires cookie != "" && Split(cookie, '-') == [id, expires, sig] && ParseInt(expires) == Some(e)
    requires e < now
    ensures Cookie2User(cookie, now, find, secret, sha1).None?
  {
  }

  /**
   * Round trip: a token made for a user whose id holds no '-' is accepted at any
   * time up to and including its expiry, provided the lookup finds a user with
   * the same stored password, and yields that user masked.
   */
  lemma CookieRoundTrip(u: User, maxAge: int, now: int, later: int,
                        find: string -> Option<User>, secret: string, sha1: Sha1)
    requires '-' !in u.id
    requires now + maxAge >= 0
    requires later <= now + maxAge
    requires find(u.id).Some? && find(u.id).value.passwd == u.passwd
    ensures Cookie2User(User2Cookie(u, maxAge, now, secret, sha1), later, find, secret, sha1)
            == Some(find(u.id).value.(passwd := "*****"))
  {
    CookieFields(u, maxAge, now, secret, sha1);
    IssuedFieldsAccepted(User2Cookie(u, maxAge, now, secret, sha1), u, now + maxAge, later, find, secret, sha1);
  }

  /** A token carrying a user's id, an integer expiry and that user's signature is accepted up to the expiry. */
  lemma IssuedFieldsAccepted(c: string, u: User, e: int, later: int,
                             find: string -> Option<User>, secret: string, sha1: Sha1)
    requires c != ""
    requires Split(c, '-') == [u.id, IntToString(e), Signature(u.id, u.passwd, IntToString(e), secret, sha1)]
    requires later <= e
    requires find(u.id).Some? && find(u.id).value.passwd == u.passwd
    ensures Cookie2User(c, later, find, secret, sha1) == Some(find(u.id).value.(passwd := "*****"))
  {
    ParseIntOfIntToString(e);
    TokenAccepted(c, u.id, IntToString(e), Signature(u.id, u.passwd, IntToString(e), secret, sha1),
                  e, later, find, secret, sha1);
  }

  /** The same token is refused one second after its expiry. */
  lemma CookieExpires(u: User, maxAge: int, now: int, later: int,
                      find: string -> Option<User>, secret: string, sha1: Sha1)
    requires '-' !in u.id
    requires now + maxAge >= 0
    requires later > now + maxAge
    ensures Cookie2User(User2Cookie(u, maxAge, now, secret, sha1), later, find, secret, sha1).None?
  {
    CookieFields(u, maxAge, now, secret, sha1);
    IssuedFieldsExpired(User2Cookie(u, maxAge, now, secret, sha1), u, now + maxAge, later, find, secret, sha1);
  }

  /** A token carrying an integer expiry is refused once the clock is past it. */
  lemma IssuedFieldsExpired(c: string, u: User, e: int, later: int,
                            find: string -> Option<User>, secret: string, sha1: Sha1)
    requires c != ""
    requires Split(c, '-') == [u.id, IntToString(e), Signature(u.id, u.passwd, IntToString(e), secret, sha1)]
    requires later > e
    ensures Cookie2User(c, later, find, secret, sha1).None?
  {
    ParseIntOfIntToString(e);
    TokenExpired(c, u.id, IntToString(e), Signature(u.id, u.passwd, IntToString(e), secret, sha1),
                 e, later, find, secret, sha1);
  }

  /** Every id `next_id` produces from a lower-case hex UUID can carry a session. */
  lemma NextIdCookieRoundTrip(ms: nat, hex: string, u: User, maxAge: int, now: int,
                              find: string -> Option<User>, secret: string, sha1: Sha1)
    requires forall i :: 0 <= i < |hex| ==> IsLowerHex(hex[i])
    requires u.id == NextId(ms, hex)
    requires 0 <= now && 0 <= maxAge
    requires find(u.id).Some? && find(u.id).value.passwd == u.passwd
    ensures Cookie2User(User2Cookie(u, maxAge, now, secret, sha1), now, find, secret, sha1)
            == Some(find(u.id).value.(passwd := "*****"))
  {
    NextIdAlphabet(ms, hex);
    CookieRoundTrip(u, maxAge, now, now, find, secret, sha1);
  }

  /** A token whose middle field is not an integer is refused: `int()` raises and the handler returns None. */
  lemma CookieNeedsIntegerExpiry(cookie: string, now: int, find: string -> Option<User>, secret: string, sha1: Sha1)
    requires |Split(cookie, '-')| == 3 && ParseInt(Split(cookie, '-')[1]).None?
    ensures Cookie2User(cookie, now, find, secret, sha1).None?
  {
  }

  /** The value `signout` leaves behind splits into three parts but never names a user. */
  lemma DeletedCookieRejected(now: int, find: string -> Option<User>, secret: string, sha1: Sha1)
    ensures Split(DELETED_COOKIE, '-') == ["", "deleted", ""]
    ensures Cookie2User(DELETED_COOKIE, now, find, secret, sha1).None?
  {
    DeletedCookieSplits();
    DeletedIsNotInteger();
    CookieNeedsIntegerExpiry(DELETED_COOKIE, now, find, secret, sha1);
  }

  lemma DeletedIsNotInteger()
    ensures ParseInt("deleted").None?
  {
    ParseIntBadFirst("deleted");
  }

  lemma DeletedCookieSplits()
    ensures Split(DELETED_COOKIE, '-') == ["", "deleted", ""]
  {
    assert DELETED_COOKIE == "" + ['-'] + "deleted" + ['-'] + "";
    SplitThree("", "deleted", "", '-');
  }

  // ================================================================ input patterns

  /** A character of the class `[\w\-]`, with `\w` read as ASCII letters, digits and '_'. */
  predicate IsWordChar(c: char)
  {
    ('a' <= c <= 'z') || ('A' <= c <= 'Z') || IsDigit(c) || c == '_' || c == '-'
  }

  /** `[\w\-]+` */
  predicate IsWordRun(s: string)
  {
    |s| > 0 && forall i :: 0 <= i < |s| ==> IsWordChar(s[i])
  }

  /** `[\w\-]+\@[\w\-]+(\.[\w\-]+){1,4}` matched against all of `s`. */
  predicate IsEmailBody(s: string)
  {
    '@' in s &&
    var at := IndexOf(s, '@');
    var labels := Split(s[at + 1..], '.');
    IsWordRun(s[..at]) && 2 <= |labels| <= 5 && forall k :: 0 <= k < |labels| ==> IsWordRun(labels[k])
  }

  /** `_RE_EMAIL.match(s)`: the anchored pattern, where `$` also accepts one final newline. */
  predicate EmailMatch(s: string)
  {
    IsEmailBody(s) || (|s| > 0 && s[|s| - 1] == '\n' && IsEmailBody(s[..|s| - 1]))
  }

  /** `[0-9a-f]{40}` */
  predicate IsHex40(s: string)
  {
    |s| == 40 && forall i :: 0 <= i < |s| ==> IsLowerHex(s[i])
  }

  /** `_RE_SHA1.match(s)`: 40 lower-case hex digits, optionally followed by one newline. */
  predicate Sha1Match(s: string)
  {
    IsHex40(s) || (|s| == 41 && s[40] == '\n' && IsHex40(s[..40]))
  }

  /** A hex SHA-1 digest, as a browser computes one for the password field, always matches `_RE_SHA1`. */
  lemma HexDigestMatchesSha1(d: Digest)
    ensures Sha1Match(HexDigest(d))
  {
  }

  /** A match of `_RE_SHA1` is exactly 40 or 41 characters long, and never empty. */
  lemma Sha1MatchLength(s: string)
    requires Sha1Match(s)
    ensures |s| == 40 || (|s| == 41 && s[40] == '\n')
    ensures s != ""
  {
  }

  /** A match of `_RE_EMAIL` is never empty and has exactly one '@' before any final newline. */
  lemma EmailMatchShape(s: string)
    requires EmailMatch(s)
    ensures s != ""
    ensures var b := if IsEmailBody(s) then s else s[..|s| - 1];
            '@' in b && IndexOf(b, '@') > 0 && '@' !in b[IndexOf(b, '@') + 1..]
  {
    var b := if IsEmailBody(s) then s else s[..|s| - 1];
    var at := IndexOf(b, '@');
    var labels := Split(b[at + 1..], '.');
    JoinSplit(b[at + 1..], '.');
    LabelsHaveNoAt(labels);
  }

  /** Joining '@'-free word runs with '.' gives an '@'-free string. */
  lemma {:induction false} LabelsHaveNoAt(labels: seq<string>)
    requires forall k :: 0 <= k < |labels| ==> IsWordRun(labels[k])
    ensures '@' !in Join(labels, '.')
  {
    if |labels| > 1 {
      LabelsHaveNoAt(labels[1..]);
    }
  }

  // ================================================================ registration and sign-in

  /**
   * The checks `api_register_user` makes before it looks anything up, in order:
   * the name must be non-blank after stripping, the email must match `_RE_EMAIL`,
   * the password must match `_RE_SHA1`.
   */
  function ValidateRegistration(email: string, name: string, passwd: string): (r: Option<Exc>)
    ensures r.None? <==> Strip(name) != "" && EmailMatch(email) && Sha1Match(passwd)
    ensures r.Some? ==> exists field :: field in {"name", "email", "passwd"} && r.value == ApiValueError(field, "")
  {
    if name == "" || Strip(name) == "" then Some(ApiValueError("name", ""))
    else if email == "" || !EmailMatch(email) then Some(ApiValueError("email", ""))
    else if passwd == "" || !Sha1Match(passwd) then Some(ApiValueError("passwd", ""))
    else None
  }

  /** Which field registration blames: the name before the email, the email before the password. */
  lemma RegistrationCheckOrder(email: string, name: string, passwd: string)
    ensures (forall k :: 0 <= k < |name| ==> IsSpace(name[k])) ==>
              ValidateRegistration(email, name, passwd) == Some(ApiValueError("name", ""))
    ensures Strip(name) != "" && !EmailMatch(email) ==>
              ValidateRegistration(email, name, passwd) == Some(ApiValueError("email", ""))
    ensures Strip(name) != "" && EmailMatch(email) && !Sha1Match(passwd) ==>
              ValidateRegistration(email, name, passwd) == Some(ApiValueError("passwd", ""))
  {
    StripEmptyIffAllSpace(name);
  }

  /**
   * The stored password: the hex SHA-1 of "uid:passwd" in UTF-8. It has the form
   * the browser's digest has, so `_RE_SHA1` accepts it too.
   */
  function StoredPasswd(uid: string, passwd: string, sha1: Sha1): (p: string)
    ensures IsHex40(p) && Sha1Match(p)
  {
    HexDigest(sha1(Utf8(uid + ":" + passwd)))
  }

  /**
   * `api_register_user` up to the saved row: validation, then the duplicate-email
   * check against `existing` (the users `findAll('email=?')` returns), then the new
   * row with id `uid` (from `next_id`), the stored digest, the stripped name and
   * the placeholder image.
   */
  function RegisterUser(email: string, name: string, passwd: string, existing: seq<User>,
                        uid: string, createdAt: int, sha1: Sha1): (r: Result<User, Exc>)
    ensures ValidateRegistration(email, name, passwd).Some? ==>
              r == Failure(ValidateRegistration(email, name, passwd).value)
    ensures ValidateRegistration(email, name, passwd).None? && |existing| > 0 ==>
              r == Failure(APIError("register:failed", "email", "Email is already in use."))
    ensures r.Failure? ==> r.error.APIError?
    ensures r.Success? <==> ValidateRegistration(email, name, passwd).None? && existing == []
    ensures r.Success? ==>
              && ValidateRegistration(email, name, passwd).None? && existing == []
              && r.value.id == uid && r.value.email == email && r.value.name == Strip(name)
              && r.value.passwd == StoredPasswd(uid, passwd, sha1) && |r.value.passwd| == 40
              && !r.value.admin && r.value.image == "about:blank" && r.value.createdAt == createdAt
  {
    var invalid := ValidateRegistration(email, name, passwd);
    if invalid.Some? then Failure(invalid.value)
    else if |existing| > 0 then Failure(APIError("register:failed", "email", "Email is already in use."))
    else Success(User(uid, email, StoredPasswd(uid, passwd, sha1), false, Strip(name), "about:blank", createdAt))
  }

  /** The registered user as echoed back in the response body: the password masked. */
  function EchoedUser(u: User): (v: User)
    ensures v.passwd == "******" && v.(passwd := u.passwd) == u
  {
    u.(passwd := "******")
  }

  /**
   * `authenticate` up to the signed-in user, rejecting in order: an empty email,
   * an empty password, an email no user has, and a password whose digest
   * (SHA-1 fed the id, then ':', then the password, all in UTF-8) differs from
   * the stored one. `users` is what `findAll('email=?')` returns for the email.
   */
  function Authenticate(email: string, passwd: string, users: seq<User>, sha1: Sha1): (r: Result<User, Exc>)
    ensures email == "" ==> r == Failure(ApiValueError("email", "Invalid email"))
    ensures email != "" && passwd == "" ==> r == Failure(ApiValueError("passwd", "Invalid  passwd"))
    ensures email != "" && passwd != "" && users == [] ==> r == Failure(ApiValueError("email", "email not exist"))
    ensures r.Success? <==> email != "" && passwd != "" && users != []
                            && users[0].passwd == HexDigest(sha1(Utf8(users[0].id) + [58 as byte] + Utf8(passwd)))
    ensures r.Success? ==> r.value == users[0]
    ensures email != "" && passwd != "" && users != []
            && users[0].passwd != HexDigest(sha1(Utf8(users[0].id) + [58 as byte] + Utf8(passwd)))
            ==> r == Failure(ApiValueError("passwd", "Invalid passwd"))
  {
    if email == "" then Failure(ApiValueError("email", "Invalid email"))
    else if passwd == "" then Failure(ApiValueError("passwd", "Invalid  passwd"))
    else if |users| == 0 then Failure(ApiValueError("email", "email not exist"))
    else
      var user := users[0];
      if user.passwd != HexDigest(sha1(Utf8(user.id) + [58 as byte] + Utf8(passwd))) then
        Failure(ApiValueError("passwd", "Invalid passwd"))
      else Success(user)
  }

  /**
   * A registration that fails raises an APIError from the handler, so
   * `__call__` answers it with the `{error, data, message}` dict, whose `data`
   * names the field at fault.
   */
  lemma RegistrationFailureAnswered(h: RequestHandler, req: Request, email: string, name: string, passwd: string,
                                    existing: seq<User>, uid: string, createdAt: int, sha1: Sha1)
    requires RegisterUser(email, name, passwd, existing, uid, createdAt, sha1).Failure?
    requires BindArgs(h, req).Bound?
    requires h.func.call(BindArgs(h, req).kw) == Raised(RegisterUser(email, name, passwd, existing, uid, createdAt, sha1).error)
    ensures var e := RegisterUser(email, name, passwd, existing, uid, createdAt, sha1).error;
            && Dispatch(h, req) == Returned(PDict(ApiErrorDict(e.error, e.data, e.message)))
            && e.data in {"name", "email", "passwd"}
  {
  }

  /**
   * Registration and sign-in hash the same bytes: a user just registered with a
   * password is signed in by that password once the lookup finds the saved row.
   */
  lemma RegisterThenAuthenticate(email: string, name: string, passwd: string, existing: seq<User>,
                                 uid: string, createdAt: int, sha1: Sha1)
    requires RegisterUser(email, name, passwd, existing, uid, createdAt, sha1).Success?
    ensures var u := RegisterUser(email, name, passwd, existing, uid, createdAt, sha1).value;
            Authenticate(email, passwd, [u], sha1) == Success(u)
  {
    var u := RegisterUser(email, name, passwd, existing, uid, createdAt, sha1).value;
    assert ValidateRegistration(email, name, passwd).None?;
    Sha1MatchLength(passwd);
    EmailMatchShape(email);
    StoredPasswdBytes(uid, passwd);
  }

  /** The bytes registration hashes are the bytes sign-in feeds SHA-1: the id, then ':', then the password. */
  lemma StoredPasswdBytes(uid: string, passwd: string)
    ensures Utf8(uid + ":" + passwd) == Utf8(uid) + [58 as byte] + Utf8(passwd)
  {
    Utf8Concat(uid + ":", passwd);
    Utf8Concat(uid, ":");
    Utf8OfAscii(":");
    assert Utf8(":") == [58 as byte];
  }

  /** Sign-in with any other password digest fails on the password, naming no other field. */
  lemma WrongPasswordRejected(email: string, passwd: string, u: User, sha1: Sha1)
    requires email != "" && passwd != ""
    requires u.passwd != HexDigest(sha1(Utf8(u.id) + [58 as byte] + Utf8(passwd)))
    ensures Authenticate(email, passwd, [u], sha1) == Failure(ApiValueError("passwd", "Invalid passwd"))
  {
  }

  // ================================================================ signout

  /** Where `signout` redirects: the Referer header when present and non-empty, otherwise "/". */
  function SignoutLocation(referer: Option<string>): (loc: string)
    ensures referer.Some? && referer.value != "" ==> loc == referer.value
    ensures !(referer.Some? && referer.value != "") ==> loc == "/"
  {
    if referer.Some? && referer.value != "" then referer.value else "/"
  }
}
