/**
 * Absolute URLs of the form `scheme://[userinfo@]host[:port]/path?query#fragment`,
 * split into the parts the migration reads or rewrites (`host`, `pathname`).
 * Serialising the parts gives back the text, so parsing and serialising are inverses.
 */
module Urls {
  import opened Wrappers
  import opened Strings

  datatype Url = Url(scheme: string, userinfo: string, host: string, path: string, suffix: string)

  predicate IsSchemeChar(c: char) {
    IsAsciiLetter(c) || IsDigit(c) || c == '+' || c == '-' || c == '.'
  }

  /** A character that ends the authority part. */
  predicate EndsAuthority(c: char) { c == '/' || c == '?' || c == '#' }

  /** A character that ends the path part. */
  predicate EndsPath(c: char) { c == '?' || c == '#' }

  /** The length of the longest prefix of `s` made of scheme characters. */
  function SchemeLen(s: string): (n: nat)
    ensures n <= |s|
    ensures forall i :: 0 <= i < n ==> IsSchemeChar(s[i])
    ensures n < |s| ==> !IsSchemeChar(s[n])
  {
    if s == [] || !IsSchemeChar(s[0]) then 0 else 1 + SchemeLen(s[1..])
  }

  /** The length of the authority at the start of `s`. */
  function AuthorityLen(s: string): (n: nat)
    ensures n <= |s|
    ensures forall i :: 0 <= i < n ==> !EndsAuthority(s[i])
    ensures n < |s| ==> EndsAuthority(s[n])
  {
    if s == [] || EndsAuthority(s[0]) then 0 else 1 + AuthorityLen(s[1..])
  }

  /** The length of the path at the start of `s`. */
  function PathLen(s: string): (n: nat)
    ensures n <= |s|
    ensures forall i :: 0 <= i < n ==> !EndsPath(s[i])
    ensures n < |s| ==> EndsPath(s[n])
  {
    if s == [] || EndsPath(s[0]) then 0 else 1 + PathLen(s[1..])
  }

  /** `new URL(s)` for absolute URLs with an authority; `None` where the constructor throws. */
  function ParseUrl(s: string): Option<Url> {
    var n := SchemeLen(s);
    if n == 0 || !IsAsciiLetter(s[0]) || !OccursAt(s, "://", n) then None
    else ParseAuthority(s[..n], s[n + 3..])
  }

  /** The index just after the last `@` of `s`, or 0 when there is none. */
  function HostStart(s: string): (k: nat)
    ensures k <= |s|
    ensures k > 0 ==> s[k - 1] == '@'
    ensures forall i :: k <= i < |s| ==> s[i] != '@'
  {
    if s == [] then 0 else if s[|s| - 1] == '@' then |s| else HostStart(s[..|s| - 1])
  }

  /** The parts after `scheme://`; the host follows the last `@` of the authority. */
  function ParseAuthority(scheme: string, rest: string): Option<Url> {
    var a := AuthorityLen(rest);
    var k := HostStart(rest[..a]);
    if k == a then None
    else
      var p := a + PathLen(rest[a..]);
      Some(Url(scheme, rest[..k], rest[k..a], rest[a..p], rest[p..]))
  }

  /** `url.toString()`. */
  function Serialize(u: Url): string {
    u.scheme + "://" + AfterScheme(u)
  }

  function AfterScheme(u: Url): string {
    u.userinfo + u.host + u.path + u.suffix
  }

  ghost predicate SchemeOk(scheme: string) {
    scheme != [] && IsAsciiLetter(scheme[0]) && forall i :: 0 <= i < |scheme| ==> IsSchemeChar(scheme[i])
  }

  /** The parts after the scheme are those a parsed URL can have. */
  ghost predicate PartsOk(u: Url) {
    && (u.userinfo == [] || u.userinfo[|u.userinfo| - 1] == '@')
    && (forall i :: 0 <= i < |u.userinfo| ==> !EndsAuthority(u.userinfo[i]))
    && u.host != [] && (forall i :: 0 <= i < |u.host| ==> !EndsAuthority(u.host[i]) && u.host[i] != '@')
    && (u.path == [] || u.path[0] == '/') && (forall i :: 0 <= i < |u.path| ==> !EndsPath(u.path[i]))
    && (u.suffix == [] || EndsPath(u.suffix[0]))
  }

  ghost predicate WellFormed(u: Url) {
    SchemeOk(u.scheme) && PartsOk(u)
  }

  /** Parsing then serialising gives back the text, and what parses is well formed. */
  lemma ParseThenSerialize(s: string)
    requires ParseUrl(s).Some?
    ensures Serialize(ParseUrl(s).value) == s
    ensures WellFormed(ParseUrl(s).value)
  {
    var n := SchemeLen(s);
    SchemeThenRest(s, n);
    SchemeOfParsed(s, n);
    AuthorityThenSerialize(s[..n], s[n + 3..]);
  }

  /** A text that parses is its scheme, `://` and the rest. */
  lemma SchemeThenRest(s: string, n: nat)
    requires ParseUrl(s).Some? && n == SchemeLen(s)
    ensures n + 3 <= |s| && s == s[..n] + "://" + s[n + 3..]
  {
    assert s[n..n + 3] == "://";
    SplitFour(s, n, n + 3, n + 3);
  }

  /** The scheme of a text that parses is well formed. */
  lemma SchemeOfParsed(s: string, n: nat)
    requires ParseUrl(s).Some? && n == SchemeLen(s)
    ensures SchemeOk(s[..n])
  {
    assert forall i :: 0 <= i < n ==> s[..n][i] == s[i];
  }

  lemma AuthorityThenSerialize(scheme: string, rest: string)
    requires ParseAuthority(scheme, rest).Some?
    ensures var u := ParseAuthority(scheme, rest).value;
      AfterScheme(u) == rest && u.scheme == scheme && PartsOk(u)
  {
    AuthorityRoundTrip(scheme, rest);
    AuthorityParts(scheme, rest);
  }

  /** The parts of the authority and what follows it put back together give the text. */
  lemma AuthorityRoundTrip(scheme: string, rest: string)
    requires ParseAuthority(scheme, rest).Some?
    ensures var u := ParseAuthority(scheme, rest).value;
      AfterScheme(u) == rest && u.scheme == scheme
  {
    var a := AuthorityLen(rest);
    var k := HostStart(rest[..a]);
    SplitFour(rest, k, a, a + PathLen(rest[a..]));
  }

  lemma AuthorityParts(scheme: string, rest: string)
    requires ParseAuthority(scheme, rest).Some?
    ensures PartsOk(ParseAuthority(scheme, rest).value)
  {
    var a := AuthorityLen(rest);
    var k := HostStart(rest[..a]);
    var p := a + PathLen(rest[a..]);
    UserinfoHostOk(rest, a, k);
    PathSuffixOk(rest, a, p);
  }

  /** The authority splits at `HostStart` into a userinfo ending in `@` and a host without `@`. */
  lemma UserinfoHostOk(rest: string, a: nat, k: nat)
    requires a == AuthorityLen(rest) && k == HostStart(rest[..a]) < a
    ensures rest[..k] == [] || rest[..k][k - 1] == '@'
    ensures forall i :: 0 <= i < k ==> !EndsAuthority(rest[..k][i])
    ensures rest[k..a] != [] && forall i :: 0 <= i < a - k ==> !EndsAuthority(rest[k..a][i]) && rest[k..a][i] != '@'
  {
    assert forall i :: 0 <= i < a ==> rest[..a][i] == rest[i];
  }

  /** What follows the authority splits at `PathLen` into a path and a suffix starting with `?` or `#`. */
  lemma PathSuffixOk(rest: string, a: nat, p: nat)
    requires a == AuthorityLen(rest) && p == a + PathLen(rest[a..])
    ensures rest[a..p] == [] || rest[a..p][0] == '/'
    ensures forall i :: 0 <= i < p - a ==> !EndsPath(rest[a..p][i])
    ensures rest[p..] == [] || EndsPath(rest[p..][0])
  {
    assert forall i :: 0 <= i < |rest| - a ==> rest[a..][i] == rest[a + i];
  }

  /** The host sits between `scheme://userinfo` and `path + suffix` in the serialised text. */
  lemma HostInside(u: Url)
    ensures Serialize(u) == (u.scheme + "://" + u.userinfo) + u.host + (u.path + u.suffix)
  {
  }

  lemma SplitFour(s: string, i: nat, j: nat, k: nat)
    requires i <= j <= k <= |s|
    ensures s == s[..i] + s[i..j] + s[j..k] + s[k..]
  {
  }

  lemma HostStartConcat(a: string, b: string)
    requires Free(b, '@')
    requires a == [] || a[|a| - 1] == '@'
    ensures HostStart(a + b) == |a|
    decreases |b|
  {
    if b == [] {
      assert a + b == a;
    } else {
      assert (a + b)[..|a + b| - 1] == a + b[..|b| - 1];
      HostStartConcat(a, b[..|b| - 1]);
    }
  }

  /** Serialising then parsing gives back the parts. */
  lemma SerializeThenParse(u: Url)
    requires WellFormed(u)
    ensures ParseUrl(Serialize(u)) == Some(u)
  {
    var s := Serialize(u);
    var rest := AfterScheme(u);
    assert s == u.scheme + ("://" + rest);
    SchemeLenConcat(u.scheme, "://" + rest);
    assert s[..|u.scheme|] == u.scheme && OccursAt(s, "://", |u.scheme|) && s[|u.scheme| + 3..] == rest by {
      assert s[|u.scheme|..|u.scheme| + 3] == "://";
    }
    AuthorityParse(u);
  }

  lemma AuthorityParse(u: Url)
    requires PartsOk(u)
    ensures ParseAuthority(u.scheme, AfterScheme(u)) == Some(u)
  {
    var authority := u.userinfo + u.host;
    var after := u.path + u.suffix;
    var rest := AfterScheme(u);
    AuthorityEnds(u);
    assert rest[..|authority|] == authority && rest[|authority|..] == after by {
      assert rest == authority + after;
    }
    HostStartConcat(u.userinfo, u.host);
    PathLenConcat(u.path, u.suffix);
    var k, a, p := |u.userinfo|, |authority|, |authority| + |u.path|;
    assert rest[..k] == u.userinfo && rest[k..a] == u.host && rest[a..p] == u.path && rest[p..] == u.suffix by {
      assert rest == u.userinfo + u.host + u.path + u.suffix;
    }
  }

  /** In a well-formed URL the authority is `userinfo + host` and ends where the path or suffix begins. */
  lemma AuthorityEnds(u: Url)
    requires PartsOk(u)
    ensures AuthorityLen(AfterScheme(u)) == |u.userinfo + u.host|
  {
    var authority := u.userinfo + u.host;
    var after := u.path + u.suffix;
    forall i | 0 <= i < |authority| ensures !EndsAuthority(authority[i]) {
      if i >= |u.userinfo| {
        assert authority[i] == u.host[i - |u.userinfo|];
      }
    }
    assert after == [] || EndsAuthority(after[0]) by {
      if u.path != [] { assert after[0] == u.path[0]; } else if u.suffix != [] { assert after[0] == u.suffix[0]; }
    }
    AuthorityLenConcat(authority, after);
    assert AfterScheme(u) == authority + after;
  }

  lemma AuthorityLenConcat(x: string, y: string)
    requires forall i :: 0 <= i < |x| ==> !EndsAuthority(x[i])
    requires y == [] || EndsAuthority(y[0])
    ensures AuthorityLen(x + y) == |x|
  {
    assert forall i :: 0 <= i < |x| ==> (x + y)[i] == x[i];
    assert y != [] ==> (x + y)[|x|] == y[0];
  }

  lemma PathLenConcat(x: string, y: string)
    requires forall i :: 0 <= i < |x| ==> !EndsPath(x[i])
    requires y == [] || EndsPath(y[0])
    ensures PathLen(x + y) == |x|
  {
    assert forall i :: 0 <= i < |x| ==> (x + y)[i] == x[i];
    assert y != [] ==> (x + y)[|x|] == y[0];
  }

  lemma SchemeLenConcat(x: string, y: string)
    requires forall i :: 0 <= i < |x| ==> IsSchemeChar(x[i])
    requires y != [] && !IsSchemeChar(y[0])
    ensures SchemeLen(x + y) == |x|
  {
    assert forall i :: 0 <= i < |x| ==> (x + y)[i] == x[i];
    assert (x + y)[|x|] == y[0];
  }
}
