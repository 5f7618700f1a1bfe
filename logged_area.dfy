/**
 * components/layout/LoggedArea.js: the cookie lookup that reads
 * `document.cookie` (passed in here as `cookie`), the login check and the
 * render-or-redirect decision of the `LoggedArea` guard.
 *
 * `document.cookie` has the shape of the Cookie header of section 4.2.1 of
 * RFC 6265: `name=value` pairs joined by `"; "`.
 */
module LoggedArea {
  import opened Wrappers
  import opened Strings
  import Authentication

  /** What `getCookie(name)` splits on. */
  function CookieSeparator(name: string): (sep: string)
    ensures |sep| == |name| + 3 && sep[0] == ';'
  {
    "; " + name + "="
  }

  /**
   * `getCookie(name)`: split `"; " + cookie` on `"; name="`; with exactly two
   * parts, the value is the second part up to its first `;`, else `null`.
   */
  function GetCookie(cookie: string, name: string): (r: Option<string>)
    ensures r.Some? ==> ';' !in r.value
  {
    var parts := Split("; " + cookie, CookieSeparator(name));
    if |parts| == 2 then
      SplitCharFree(parts[1], ';', 0);
      Some(Split(parts[1], ";")[0])
    else None
  }

  /** `useCookie(name)`: a second copy of the same lookup. */
  function UseCookie(cookie: string, name: string): (r: Option<string>)
    ensures r == GetCookie(cookie, name)
  {
    var parts := Split("; " + cookie, CookieSeparator(name));
    if |parts| == 2 then Some(Split(parts[1], ";")[0]) else None
  }

  /**
   * Whatever the cookie string, a found value is the text that follows the
   * only occurrence of `"; name="` in `"; " + cookie`, up to the next `;`.
   */
  lemma GetCookieFound(cookie: string, name: string)
    requires GetCookie(cookie, name).Some?
    ensures var sep, v := CookieSeparator(name), GetCookie(cookie, name).value;
      exists before, after ::
        && "; " + cookie == before + sep + after
        && !Contains(before, sep) && !Contains(after, sep)
        && StartsWith(after, v)
        && (|v| == |after| || after[|v|] == ';')
  {
    var sep, v := CookieSeparator(name), GetCookie(cookie, name).value;
    var parts := Split("; " + cookie, sep);
    assert |parts| == 2;
    var before, after := parts[0], parts[1];
    assert "; " + cookie == before + sep + after by {
      JoinSplit("; " + cookie, sep);
      JoinTwo(parts, sep);
    }
    SplitPartsFree("; " + cookie, sep, 0);
    SplitPartsFree("; " + cookie, sep, 1);
    FieldPrefix(after, v);
  }

  lemma JoinTwo(parts: seq<string>, sep: string)
    requires |parts| == 2
    ensures Join(parts, sep) == parts[0] + sep + parts[1]
  {
    assert parts[1..][0] == parts[1];
  }

  /** The first `;`-field of `s` is a prefix of `s` that ends at a `;` or at the end. */
  lemma FieldPrefix(s: string, v: string)
    requires v == Split(s, ";")[0]
    ensures StartsWith(s, v) && (|v| == |s| || s[|v|] == ';')
  {
    var fields := Split(s, ";");
    JoinSplit(s, ";");
    if |fields| > 1 {
      assert s == v + ";" + Join(fields[1..], ";");
    } else {
      assert s == v;
    }
    assert s[..|v|] == v;
  }

  /** A name whose separator does not occur at all is not found. */
  lemma GetCookieAbsent(cookie: string, name: string)
    requires !Contains("; " + cookie, CookieSeparator(name))
    ensures GetCookie(cookie, name) == None
  {
    SplitSingle("; " + cookie, CookieSeparator(name));
  }

  // ----- Well-formed cookie headers -----

  datatype CookiePair = CookiePair(name: string, value: string)

  /** The `document.cookie` text of a list of pairs: `a=1; b=2`. */
  function CookieHeader(ps: seq<CookiePair>): string {
    if |ps| == 0 then ""
    else if |ps| == 1 then ps[0].name + "=" + ps[0].value
    else ps[0].name + "=" + ps[0].value + "; " + CookieHeader(ps[1..])
  }

  /** A name `getCookie` can tell apart: no `;` and no `=`. */
  predicate PlainName(n: string) {
    ';' !in n && '=' !in n
  }

  predicate WellFormed(ps: seq<CookiePair>) {
    forall i :: 0 <= i < |ps| ==> PlainName(ps[i].name) && ';' !in ps[i].value
  }

  /** How many pairs are named `n`. */
  function Count(ps: seq<CookiePair>, n: string): nat {
    if |ps| == 0 then 0
    else (if ps[0].name == n then 1 else 0) + Count(ps[1..], n)
  }

  /** The value of the first pair named `n`. */
  function FirstValue(ps: seq<CookiePair>, n: string): (r: Option<string>)
    ensures r.Some? <==> Count(ps, n) > 0
    ensures r.Some? ==> exists i :: 0 <= i < |ps| && ps[i] == CookiePair(n, r.value)
  {
    if |ps| == 0 then None
    else if ps[0].name == n then Some(ps[0].value)
    else FirstValue(ps[1..], n)
  }

  /** `"; " + name + "=" + value`, one pair as it follows a separator. */
  function Block(p: CookiePair): string {
    "; " + p.name + "=" + p.value
  }

  function Blocks(ps: seq<CookiePair>): (s: string)
    ensures ps != [] ==> |s| > 0 && s[0] == ';'
  {
    if |ps| == 0 then "" else Block(ps[0]) + Blocks(ps[1..])
  }

  lemma {:induction false} HeaderBlocks(ps: seq<CookiePair>)
    requires ps != []
    ensures "; " + CookieHeader(ps) == Blocks(ps)
    decreases |ps|
  {
    if |ps| > 1 {
      HeaderBlocks(ps[1..]);
    }
  }

  lemma OccursAfter(a: string, b: string, pat: string, k: nat)
    ensures OccursAt(a + b, pat, |a| + k) <==> OccursAt(b, pat, k)
  {
    if |a| + k + |pat| <= |a + b| {
      assert (a + b)[|a| + k..|a| + k + |pat|] == b[k..k + |pat|];
    }
  }

  /** An occurrence fails as soon as one character differs. */
  lemma Mismatch(s: string, pat: string, k: nat, i: nat)
    requires i < |pat| && (k + i < |s| ==> s[k + i] != pat[i])
    ensures !OccursAt(s, pat, k)
  {
    if k + |pat| <= |s| {
      assert s[k..k + |pat|][i] == s[k + i];
    }
  }

  /** Where `s` holds no `;`, no separator occurrence starts. */
  lemma NoOccurrenceAtPlain(s: string, n: string, k: nat)
    requires k < |s| && s[k] != ';'
    ensures !OccursAt(s, CookieSeparator(n), k)
  {
    Mismatch(s, CookieSeparator(n), k, 0);
  }

  lemma NoOccurrenceInPlainPrefix(x: string, t: string, n: string)
    requires ';' !in x
    ensures forall k :: 0 <= k < |x| ==> !OccursAt(x + t, CookieSeparator(n), k)
  {
    forall k | 0 <= k < |x| ensures !OccursAt(x + t, CookieSeparator(n), k) {
      assert (x + t)[k] == x[k];
      NoOccurrenceAtPlain(x + t, n, k);
    }
  }

  /** A block only ever matches the separator of its own name. */
  lemma BlockStartMatch(p: CookiePair, t: string, n: string)
    requires PlainName(p.name) && PlainName(n)
    ensures OccursAt(Block(p) + t, CookieSeparator(n), 0) <==> p.name == n
  {
    var s, sep := Block(p) + t, CookieSeparator(n);
    var L, M := |n|, |p.name|;
    if p.name == n {
      assert s[..|sep|] == sep;
    } else if M < L {
      assert s[2 + M] == '=' && sep[2 + M] == n[M];
      Mismatch(s, sep, 0, 2 + M);
    } else if M > L {
      assert s[2 + L] == p.name[L] && sep[2 + L] == '=';
      Mismatch(s, sep, 0, 2 + L);
    } else {
      assert exists i :: 0 <= i < L && p.name[i] != n[i];
      var i :| 0 <= i < L && p.name[i] != n[i];
      assert s[2 + i] == p.name[i] && sep[2 + i] == n[i];
      Mismatch(s, sep, 0, 2 + i);
    }
  }

  /** Inside a block, after its leading `;`, there is no `;`. */
  lemma NoSeparatorInsideBlock(p: CookiePair, t: string, n: string, k: nat)
    requires PlainName(p.name) && ';' !in p.value
    requires 0 < k < |Block(p)|
    ensures !OccursAt(Block(p) + t, CookieSeparator(n), k)
  {
    var s, M := Block(p) + t, |p.name|;
    if k == 1 {
      assert s[k] == ' ';
    } else if k < 2 + M {
      assert s[k] == p.name[k - 2];
    } else if k == 2 + M {
      assert s[k] == '=';
    } else {
      assert s[k] == p.value[k - 3 - M];
    }
    NoOccurrenceAtPlain(s, n, k);
  }

  lemma BlockAfterSeparator(p: CookiePair, B: string)
    ensures (Block(p) + B)[|CookieSeparator(p.name)|..] == p.value + B
  {
    var sep := CookieSeparator(p.name);
    assert Block(p) + B == sep + (p.value + B);
  }

  /** The step of `SplitBlocks` for a leading pair named `n`. */
  lemma SplitAtMatchingBlock(x: string, p: CookiePair, B: string, n: string)
    requires ';' !in x && PlainName(p.name) && p.name == n
    ensures Split(x + (Block(p) + B), CookieSeparator(n)) == [x] + Split(p.value + B, CookieSeparator(n))
  {
    var sep, t := CookieSeparator(n), Block(p) + B;
    NoOccurrenceInPlainPrefix(x, t, n);
    SplitShift(x, t, sep);
    BlockStartMatch(p, B, n);
    SplitAtStart(t, sep);
    BlockAfterSeparator(p, B);
    var tail := Split(p.value + B, sep);
    assert Split(t, sep) == [""] + tail;
    assert Split(t, sep)[0] == "";
    assert Split(t, sep)[1..] == tail;
    assert x + "" == x;
  }

  /** The step of `SplitBlocks` for a leading pair with another name. */
  lemma SplitAtOtherBlock(x: string, p: CookiePair, B: string, n: string)
    requires ';' !in x && PlainName(p.name) && ';' !in p.value && PlainName(n) && p.name != n
    ensures var parts := Split(B, CookieSeparator(n));
      Split(x + (Block(p) + B), CookieSeparator(n)) == [x + Block(p) + parts[0]] + parts[1..]
  {
    var sep, y := CookieSeparator(n), x + Block(p);
    assert x + (Block(p) + B) == y + B;
    forall k | 0 <= k < |y| ensures !OccursAt(y + B, sep, k) {
      if k < |x| {
        assert (y + B)[k] == x[k];
        NoOccurrenceAtPlain(y + B, n, k);
      } else {
        OccursAfter(x, Block(p) + B, sep, k - |x|);
        if k == |x| {
          BlockStartMatch(p, B, n);
        } else {
          NoSeparatorInsideBlock(p, B, n, k - |x|);
        }
      }
    }
    SplitShift(y, B, sep);
  }

  lemma TailWellFormed(ps: seq<CookiePair>)
    requires WellFormed(ps) && ps != []
    ensures WellFormed(ps[1..]) && PlainName(ps[0].name) && ';' !in ps[0].value
  {
    forall i | 0 <= i < |ps| - 1 ensures PlainName(ps[1..][i].name) && ';' !in ps[1..][i].value {
      assert ps[1..][i] == ps[i + 1];
    }
  }

  /**
   * Splitting `x + Blocks(ps)` (with no `;` in `x`) on `"; n="` yields one part
   * more than there are pairs named `n`; with exactly one, the second part
   * starts with that pair's value, up to a `;`.
   */
  lemma {:induction false} SplitBlocks(x: string, ps: seq<CookiePair>, n: string)
    requires ';' !in x && WellFormed(ps) && PlainName(n)
    ensures |Split(x + Blocks(ps), CookieSeparator(n))| == Count(ps, n) + 1
    ensures Count(ps, n) == 1 ==>
      Some(Split(Split(x + Blocks(ps), CookieSeparator(n))[1], ";")[0]) == FirstValue(ps, n)
    decreases |ps|
  {
    var sep := CookieSeparator(n);
    if |ps| == 0 {
      assert x + Blocks(ps) == x;
      NoOccurrenceInPlainPrefix(x, "", n);
      assert x + "" == x;
      assert !OccursAt(x, sep, |x|);
      SplitSingle(x, sep);
    } else {
      var p, rest := ps[0], ps[1..];
      var B := Blocks(rest);
      TailWellFormed(ps);
      assert x + Blocks(ps) == x + (Block(p) + B);
      if p.name == n {
        SplitAtMatchingBlock(x, p, B, n);
        SplitBlocks(p.value, rest, n);
        if Count(ps, n) == 1 {
          SplitSingle(p.value + B, sep);
          FirstFieldBefore(p.value, B, ';');
        }
      } else {
        SplitAtOtherBlock(x, p, B, n);
        assert "" + B == B;
        SplitBlocks("", rest, n);
      }
    }
  }

  /**
   * On a well-formed cookie header, `getCookie(n)` returns the value of the
   * pair named `n` when there is exactly one such pair, and `null` when there
   * is none or more than one. A pair whose name merely ends with `n`
   * (`xtoken` for `token`) is a different name and is not matched.
   */
  lemma GetCookieFromHeader(ps: seq<CookiePair>, n: string)
    requires WellFormed(ps) && PlainName(n)
    ensures GetCookie(CookieHeader(ps), n) == if Count(ps, n) == 1 then FirstValue(ps, n) else None
  {
    var sep := CookieSeparator(n);
    if ps == [] {
      assert "; " + CookieHeader(ps) == "; ";
      assert IndexOf("; ", sep) == None;
    } else {
      HeaderBlocks(ps);
      assert "" + Blocks(ps) == Blocks(ps);
      SplitBlocks("", ps, n);
    }
  }

  // ----- Login check and guard -----

  /** The cookie that holds the session token. */
  const TokenCookie := "token"

  /**
   * `isLoggedIn(user)`: a logged-in user in the store (`user` is the stored
   * `userLogin`, `None` for `null`) and a `token` cookie that is present.
   */
  function IsLoggedIn<U>(user: Option<U>, cookie: string): (r: bool)
    ensures r <==> user.Some? && GetCookie(cookie, TokenCookie).Some?
  {
    !(user.None? || GetCookie(cookie, TokenCookie).None?)
  }

  /**
   * With a well-formed cookie header, the check holds iff a user is stored and
   * exactly one `token` pair is present; an empty token value still counts.
   */
  lemma IsLoggedInFromHeader<U>(user: Option<U>, ps: seq<CookiePair>)
    requires WellFormed(ps)
    ensures IsLoggedIn(user, CookieHeader(ps)) <==> user.Some? && Count(ps, TokenCookie) == 1
  {
    GetCookieFromHeader(ps, TokenCookie);
  }

  lemma EmptyTokenIsPresent<U>(u: U)
    ensures IsLoggedIn(Some(u), "token=")
  {
    var ps := [CookiePair("token", "")];
    assert CookieHeader(ps) == "token=";
    IsLoggedInFromHeader(Some(u), ps);
  }

  datatype View = Children | Redirect(path: string)

  /** `LoggedArea`: render the children when logged in, otherwise replace the route with `/login`. */
  function Guard<U>(user: Option<U>, cookie: string): (v: View)
    ensures v == Children <==> IsLoggedIn(user, cookie)
    ensures v != Children ==> v == Redirect("/login")
  {
    if IsLoggedIn(user, cookie) then Children else Redirect("/login")
  }

  /** After a logout, whatever cookies remain, the guard sends the visitor to `/login`. */
  lemma LogoutRedirects<U, V, P>(s: Option<Authentication.AuthState<U, V>>, a: Authentication.Action<U, P>, cookie: string)
    requires a.kind == Authentication.Logout
    ensures Guard(Authentication.Auth(s, a).userLogin, cookie) == Redirect("/login")
  {
  }

  /** After a successful login that returned a user, the guard lets through exactly when the token cookie is set. */
  lemma LoginShowsChildren<U, V, P>(s: Option<Authentication.AuthState<U, V>>, a: Authentication.Action<U, P>, cookie: string)
    requires a.kind == Authentication.LoginSuccess && a.response.Some?
    ensures Guard(Authentication.Auth(s, a).userLogin, cookie) == Children <==> GetCookie(cookie, TokenCookie).Some?
  {
  }
}
