/** UTF-8, as Python's `str.encode` produces it for strings of Unicode scalar values. */
module Utf8 {
  import opened Wrappers

  type Byte = b: int | 0 <= b < 256

  function EncodeChar(c: char): (r: seq<Byte>)
    ensures 1 <= |r| <= 4
  {
    var n := c as int;
    if n < 0x80 then [n]
    else if n < 0x800 then [0xC0 + n / 64, 0x80 + n % 64]
    else if n < 0x10000 then [0xE0 + n / 64 / 64, 0x80 + n / 64 % 64, 0x80 + n % 64]
    else [0xF0 + n / 64 / 64 / 64, 0x80 + n / 64 / 64 % 64, 0x80 + n / 64 % 64, 0x80 + n % 64]
  }

  function Encode(s: string): seq<Byte> {
    if s == [] then [] else EncodeChar(s[0]) + Encode(s[1..])
  }

  function Length(first: Byte): nat {
    if first < 0x80 then 1 else if first < 0xE0 then 2 else if first < 0xF0 then 3 else 4
  }

  function CodePoint(bs: seq<Byte>): int
    requires bs != [] && |bs| == Length(bs[0])
  {
    if |bs| == 1 then bs[0]
    else if |bs| == 2 then Join(bs[0] as int - 0xC0, bs[1])
    else if |bs| == 3 then Join(Join(bs[0] as int - 0xE0, bs[1]), bs[2])
    else Join(Join(Join(bs[0] as int - 0xF0, bs[1]), bs[2]), bs[3])
  }

  /** Six more bits from a continuation byte. */
  function Join(high: int, low: Byte): int {
    64 * high + (low as int - 0x80)
  }

  function Decode(bs: seq<Byte>): Option<string> {
    if bs == [] then Some([])
    else
      var k := Length(bs[0]);
      if k > |bs| then None
      else
        var n := CodePoint(bs[..k]);
        if !(0 <= n < 0xD800 || 0xE000 <= n < 0x11_0000) then None
        else
          match Decode(bs[k..])
          case Some(rest) => Some([n as char] + rest)
          case None => None
  }

  lemma DecodeChar(c: char)
    ensures var e := EncodeChar(c); Length(e[0]) == |e| && CodePoint(e) == c as int
  {
    var n := c as int;
    JoinUndoesSplit(n);
    JoinUndoesSplit(n / 64);
    JoinUndoesSplit(n / 64 / 64);
  }

  predicate Continuation(b: Byte) { 0x80 <= b < 0xC0 }

  /** The byte sequences of section 4 of RFC 3629: shortest form, no surrogates. */
  predicate WellFormed(e: seq<Byte>) {
    || (|e| == 1 && e[0] < 0x80)
    || (|e| == 2 && 0xC2 <= e[0] < 0xE0 && Continuation(e[1]))
    || (|e| == 3 && 0xE0 <= e[0] < 0xF0 && Continuation(e[1]) && Continuation(e[2])
        && (e[0] == 0xE0 ==> e[1] >= 0xA0) && (e[0] == 0xED ==> e[1] < 0xA0))
    || (|e| == 4 && 0xF0 <= e[0] < 0xF5 && Continuation(e[1]) && Continuation(e[2]) && Continuation(e[3])
        && (e[0] == 0xF0 ==> e[1] >= 0x90) && (e[0] == 0xF4 ==> e[1] < 0x90))
  }

  lemma EncodedIsWellFormed(c: char)
    ensures WellFormed(EncodeChar(c))
  {
    var n := c as int;
    assert 0 <= n < 0xD800 || 0xE000 <= n < 0x11_0000;
    assert n >= 0x10000 ==> n / 64 / 64 / 64 <= 4;
  }

  lemma JoinUndoesSplit(n: int)
    requires n >= 0
    ensures Join(n / 64, 0x80 + n % 64) == n
  {
  }

  lemma {:induction false} RoundTrip(s: string)
    ensures Decode(Encode(s)) == Some(s)
  {
    if s != [] {
      var e, bs := EncodeChar(s[0]), Encode(s);
      DecodeChar(s[0]);
      RoundTrip(s[1..]);
      assert bs[0] == e[0] && bs[..|e|] == e && bs[|e|..] == Encode(s[1..]);
      assert s == [s[0]] + s[1..];
    }
  }
}

/** Percent-encoding of everything but the unreserved characters. */
module Percent {
  import opened Wrappers
  import opened Utf8

  predicate Unreserved(b: int) {
    || 'a' as int <= b <= 'z' as int || 'A' as int <= b <= 'Z' as int || '0' as int <= b <= '9' as int
    || b == '-' as int || b == '.' as int || b == '_' as int || b == '~' as int
  }

  function HexDigit(n: int): char
    requires 0 <= n < 16
  {
    if n < 10 then ('0' as int + n) as char else ('A' as int + n - 10) as char
  }

  function HexValue(c: char): Option<int> {
    if '0' <= c <= '9' then Some(c as int - '0' as int)
    else if 'A' <= c <= 'F' then Some(c as int - 'A' as int + 10)
    else if 'a' <= c <= 'f' then Some(c as int - 'a' as int + 10)
    else None
  }

  function QuoteByte(b: Byte): string {
    if Unreserved(b) then [b as char] else ['%', HexDigit(b / 16), HexDigit(b % 16)]
  }

  function QuoteBytes(bs: seq<Byte>): string {
    if bs == [] then [] else QuoteByte(bs[0]) + QuoteBytes(bs[1..])
  }

  /** `quote(s, safe="")`. */
  function Quote(s: string): string {
    QuoteBytes(Encode(s))
  }

  function Cons(b: Byte, rest: Option<seq<Byte>>): Option<seq<Byte>> {
    match rest
    case Some(bs) => Some([b] + bs)
    case None => None
  }

  function UnquoteBytes(s: string): Option<seq<Byte>> {
    if s == [] then Some([])
    else if s[0] == '%' then
      if |s| < 3 then None
      else
        match (HexValue(s[1]), HexValue(s[2]))
        case (Some(h), Some(l)) => if 0 <= h * 16 + l < 256 then Cons(h * 16 + l, UnquoteBytes(s[3..])) else None
        case _ => None
    else if s[0] as int < 0x80 then Cons(s[0] as int, UnquoteBytes(s[1..]))
    else None
  }

  function Unquote(s: string): Option<string> {
    match UnquoteBytes(s)
    case Some(bs) => Decode(bs)
    case None => None
  }

  lemma {:induction false} BytesRoundTrip(bs: seq<Byte>)
    ensures UnquoteBytes(QuoteBytes(bs)) == Some(bs)
  {
    if bs != [] {
      var b, q, s := bs[0], QuoteByte(bs[0]), QuoteBytes(bs);
      BytesRoundTrip(bs[1..]);
      assert s[..|q|] == q && s[|q|..] == QuoteBytes(bs[1..]);
      assert bs == [b] + bs[1..];
      if !Unreserved(b) {
        assert s[0] == q[0] && s[1] == q[1] && s[2] == q[2];
        assert HexValue(s[1]) == Some(b / 16) && HexValue(s[2]) == Some(b % 16);
        assert s[3..] == QuoteBytes(bs[1..]);
      } else {
        assert s[0] == q[0] == b as char;
        assert s[1..] == QuoteBytes(bs[1..]);
      }
    }
  }

  lemma QuoteRoundTrip(s: string)
    ensures Unquote(Quote(s)) == Some(s)
  {
    BytesRoundTrip(Encode(s));
    RoundTrip(s);
  }

  predicate Safe(s: string) {
    forall i :: 0 <= i < |s| ==> s[i] == '%' || Unreserved(s[i] as int)
  }

  lemma {:induction false} QuotedIsSafe(bs: seq<Byte>)
    ensures Safe(QuoteBytes(bs))
  {
    if bs != [] {
      QuotedIsSafe(bs[1..]);
      assert Safe(QuoteByte(bs[0]));
    }
  }

  const UPPER := "ABCDEFGHIJKLMNOPQRSTUVWXYZ"
  const LOWER := "abcdefghijklmnopqrstuvwxyz"
  const DIGITS := "0123456789"
  const MARKS := "-._~"
  const UNRESERVED := UPPER + LOWER + DIGITS + MARKS
  const HEX := "0123456789ABCDEF"

  /** How each byte is spelled (sections 2.1 and 2.3 of RFC 3986): an unreserved character as
      itself, any other byte as '%' and two upper-case digits. */
  lemma ByteSpelling(b: Byte)
    ensures QuoteByte(b) == if b as char in UNRESERVED then [b as char] else ['%', HEX[b / 16], HEX[b % 16]]
  {
    UnreservedTable(b);
    HexTable(b / 16);
    HexTable(b % 16);
  }

  lemma HexTable(d: int)
    requires 0 <= d < 16
    ensures HexDigit(d) == HEX[d]
  {
  }

  lemma Letters(k: nat)
    requires k < 26
    ensures UPPER[k] as int == 'A' as int + k && LOWER[k] as int == 'a' as int + k
  {
  }

  lemma UnreservedTable(b: Byte)
    ensures Unreserved(b) <==> b as char in UNRESERVED
  {
    var c := b as char;
    LetterTable(b);
    if '0' <= c <= '9' { assert DIGITS[b - '0' as int] == c; }
    assert c in DIGITS <==> '0' <= c <= '9';
    assert MARKS[0] == '-' && MARKS[1] == '.' && MARKS[2] == '_' && MARKS[3] == '~';
  }

  lemma LetterTable(b: Byte)
    ensures b as char in UPPER <==> 'A' as int <= b <= 'Z' as int
    ensures b as char in LOWER <==> 'a' as int <= b <= 'z' as int
  {
    forall k: nat | k < 26
      ensures UPPER[k] as int == 'A' as int + k && LOWER[k] as int == 'a' as int + k
    {
      Letters(k);
    }
    if 'A' as int <= b <= 'Z' as int { assert UPPER[b - 'A' as int] == b as char; }
    if 'a' as int <= b <= 'z' as int { assert LOWER[b - 'a' as int] == b as char; }
  }
}

/** `IceServer.to_url` and the reader that undoes it. */
module IceServerUrl {
  import opened Wrappers
  import opened Percent

  datatype IceServer = IceServer(url: string, username: Option<string>, credential: Option<string>)

  datatype UrlError = NotSchemePrefixed | AlreadyCarriesCredentials

  datatype Split = Split(before: string, found: bool, after: string)

  /** `str.partition`: split at the first `c`. */
  function Partition(s: string, c: char): (p: Split)
    ensures p.found ==> s == p.before + [c] + p.after && c !in p.before
    ensures !p.found ==> p.before == s && p.after == [] && c !in s
  {
    if s == [] then Split([], false, [])
    else if s[0] == c then Split([], true, s[1..])
    else
      var p := Partition(s[1..], c);
      Split([s[0]] + p.before, p.found, p.after)
  }

  function OrEmpty(s: Option<string>): string {
    match s
    case Some(v) => v
    case None => ""
  }

  predicate HasCredentials(server: IceServer) {
    server.username.Some? || server.credential.Some?
  }

  function ToUrl(server: IceServer): Result<string, UrlError> {
    if !HasCredentials(server) then Ok(server.url)
    else
      var p := Partition(server.url, ':');
      if p.after == [] then Err(NotSchemePrefixed)
      else if '@' in Partition(p.after, '/').before then Err(AlreadyCarriesCredentials)
      else
        Ok(p.before + ":" + Quote(OrEmpty(server.username)) + ":" + Quote(OrEmpty(server.credential)) + "@" + p.after)
  }

  /** No credentials: the URL is passed through. */
  lemma PlainUrlPasses(server: IceServer)
    requires server.username == None && server.credential == None
    ensures ToUrl(server) == Ok(server.url)
  {
  }

  datatype Parts = Parts(scheme: string, user: string, password: string, rest: string)

  /** Split at the first ':', the next ':' and then the first '@'; decode the two middles. */
  function Read(u: string): Option<Parts> {
    var p := Partition(u, ':');
    var q := Partition(p.after, ':');
    var r := Partition(q.after, '@');
    if !p.found || !q.found || !r.found then None
    else
      match (Unquote(q.before), Unquote(r.before))
      case (Some(user), Some(password)) => Some(Parts(p.before, user, password, r.after))
      case _ => None
  }

  lemma {:induction false} PartitionAt(a: string, c: char, b: string)
    requires c !in a
    ensures Partition(a + [c] + b, c) == Split(a, true, b)
  {
    if a != [] {
      PartitionAt(a[1..], c, b);
      assert (a + [c] + b)[1..] == a[1..] + [c] + b;
    }
  }

  lemma QuoteAvoids(s: string)
    ensures ':' !in Quote(s) && '@' !in Quote(s) && '/' !in Quote(s)
  {
    QuotedIsSafe(Utf8.Encode(s));
  }

  lemma ReadComposed(scheme: string, user: string, password: string, rest: string)
    requires ':' !in scheme
    ensures Read(scheme + ":" + Quote(user) + ":" + Quote(password) + "@" + rest)
            == Some(Parts(scheme, user, password, rest))
  {
    var u, w := Quote(user), Quote(password);
    QuoteAvoids(user);
    QuoteAvoids(password);
    QuoteRoundTrip(user);
    QuoteRoundTrip(password);
    var tail2 := w + ['@'] + rest;
    var tail1 := u + [':'] + tail2;
    assert scheme + ":" + u + ":" + w + "@" + rest == scheme + [':'] + tail1;
    PartitionAt(scheme, ':', tail1);
    PartitionAt(u, ':', tail2);
    PartitionAt(w, '@', rest);
  }

  /** Reading an accepted server's URL gives back its scheme, user name, credential and
      remainder, which together are the whole server (a missing credential reads as ""). */
  lemma UrlRoundTrip(server: IceServer)
    requires (server.username.Some? || server.credential.Some?) && ToUrl(server).Ok?
    ensures Read(ToUrl(server).value).Some?
    ensures var parts := Read(ToUrl(server).value).value;
            && (server.username == Some(parts.user) || (server.username == None && parts.user == ""))
            && (server.credential == Some(parts.password) || (server.credential == None && parts.password == ""))
            && server.url == parts.scheme + ":" + parts.rest
            && ':' !in parts.scheme && parts.rest != []
  {
    var p := Partition(server.url, ':');
    assert p.found;
    ReadComposed(p.before, OrEmpty(server.username), OrEmpty(server.credential), p.after);
  }

  /** What the server says, with a missing user name or credential read as "". */
  function PartsOf(server: IceServer): Parts {
    var p := Partition(server.url, ':');
    Parts(p.before, OrEmpty(server.username), OrEmpty(server.credential), p.after)
  }

  function Print(parts: Parts): string {
    parts.scheme + ":" + Quote(parts.user) + ":" + Quote(parts.password) + "@" + parts.rest
  }

  lemma CredentialsPrint(server: IceServer)
    requires (server.username.Some? || server.credential.Some?) && ToUrl(server).Ok?
    ensures ToUrl(server).value == Print(PartsOf(server)) && Read(ToUrl(server).value) == Some(PartsOf(server))
    ensures server.url == PartsOf(server).scheme + ":" + PartsOf(server).rest
  {
    var p := Partition(server.url, ':');
    assert p.found;
    ReadComposed(p.before, OrEmpty(server.username), OrEmpty(server.credential), p.after);
  }

  predicate SameText(a: Option<string>, b: Option<string>) {
    a == b || (a == None && b == Some("")) || (a == Some("") && b == None)
  }

  /** Two servers with credentials get the same URL only if they agree, up to None = "". */
  lemma UrlIsInjective(a: IceServer, b: IceServer)
    requires (a.username.Some? || a.credential.Some?) && (b.username.Some? || b.credential.Some?)
    requires ToUrl(a).Ok? && ToUrl(a) == ToUrl(b)
    ensures a.url == b.url && SameText(a.username, b.username) && SameText(a.credential, b.credential)
  {
    CredentialsPrint(a);
    CredentialsPrint(b);
  }

  /** Over every pair of accepted servers, exactly which outputs coincide: plain servers with
      the same URL; servers with credentials that agree up to None = ""; and a plain server
      with one with credentials when its URL reads as the other's parts and spells them as
      `to_url` does. */
  lemma UrlsCoincideIff(a: IceServer, b: IceServer)
    requires ToUrl(a).Ok? && ToUrl(b).Ok?
    ensures a.username == None == a.credential && b.username == None == b.credential ==>
              (ToUrl(a) == ToUrl(b) <==> a.url == b.url)
    ensures (a.username.Some? || a.credential.Some?) && (b.username.Some? || b.credential.Some?) ==>
              (ToUrl(a) == ToUrl(b) <==>
               a.url == b.url && SameText(a.username, b.username) && SameText(a.credential, b.credential))
    ensures a.username == None == a.credential && (b.username.Some? || b.credential.Some?) ==>
              (ToUrl(a) == ToUrl(b) <==>
               Read(a.url) == Some(PartsOf(b)) && a.url == Print(Read(a.url).value))
  {
    if a.username == None == a.credential {
      PlainUrlPasses(a);
      if b.username == None == b.credential { PlainUrlPasses(b); } else { PlainMeetsCredentials(a, b); }
    } else if b.username.Some? || b.credential.Some? {
      CredentialsMeet(a, b);
    }
  }

  lemma PlainMeetsCredentials(a: IceServer, b: IceServer)
    requires a.username == None == a.credential && (b.username.Some? || b.credential.Some?) && ToUrl(b).Ok?
    ensures ToUrl(a) == ToUrl(b) <==> Read(a.url) == Some(PartsOf(b)) && a.url == Print(Read(a.url).value)
  {
    PlainUrlPasses(a);
    CredentialsPrint(b);
  }

  lemma CredentialsMeet(a: IceServer, b: IceServer)
    requires (a.username.Some? || a.credential.Some?) && (b.username.Some? || b.credential.Some?)
    requires ToUrl(a).Ok? && ToUrl(b).Ok?
    ensures ToUrl(a) == ToUrl(b) <==>
              a.url == b.url && SameText(a.username, b.username) && SameText(a.credential, b.credential)
  {
    if ToUrl(a) == ToUrl(b) { UrlIsInjective(a, b); }
    if a.url == b.url && SameText(a.username, b.username) && SameText(a.credential, b.credential) {
      CredentialsPrint(a);
      CredentialsPrint(b);
      assert PartsOf(a) == PartsOf(b);
    }
  }

  /** Credentials are never embedded twice: the output, offered again with credentials, is
      rejected. */
  lemma OutputIsRejected(server: IceServer, again: IceServer)
    requires (server.username.Some? || server.credential.Some?) && ToUrl(server).Ok?
    requires (again.username.Some? || again.credential.Some?) && again.url == ToUrl(server).value
    ensures ToUrl(again) == Err(AlreadyCarriesCredentials)
  {
    var p := Partition(server.url, ':');
    var head := Quote(OrEmpty(server.username)) + [':'] + Quote(OrEmpty(server.credential));
    QuoteAvoids(OrEmpty(server.username));
    QuoteAvoids(OrEmpty(server.credential));
    assert again.url == p.before + [':'] + (head + ['@'] + p.after);
    PartitionAt(p.before, ':', head + ['@'] + p.after);
    AtFollows(head, p.after);
  }

  lemma AtFollows(head: string, rest: string)
    requires '/' !in head
    ensures '@' in Partition(head + ['@'] + rest, '/').before
  {
    PartitionPrefix(head + ['@'], rest, '/');
    assert (head + ['@'])[|head|] in Partition(head + ['@'] + rest, '/').before;
  }

  lemma {:induction false} PartitionPrefix(a: string, b: string, c: char)
    requires c !in a
    ensures a <= Partition(a + b, c).before
  {
    if a != [] {
      PartitionPrefix(a[1..], b, c);
      assert (a + b)[1..] == a[1..] + b && (a + b)[0] == a[0] && a[0] in a;
      assert a == [a[0]] + a[1..];
    }
  }

  /** Refused as not scheme-prefixed: exactly the servers with credentials whose URL has no
      ':' before its last character. */
  lemma NotSchemePrefixedIff(server: IceServer)
    ensures ToUrl(server) == Err(NotSchemePrefixed) <==>
              (server.username.Some? || server.credential.Some?)
              && forall i :: 0 <= i < |server.url| - 1 ==> server.url[i] != ':'
  {
    var url := server.url;
    var p := Partition(url, ':');
    var n := |p.before|;
    if p.found {
      assert url[n] == ':';
      assert forall i :: 0 <= i < n ==> url[i] == p.before[i] && url[i] != ':';
    }
  }

  /** '@' ahead of the first '/', position by position. */
  predicate AuthorityHasAt(s: string) {
    exists k :: 0 <= k < |s| && s[k] == '@' && '/' !in s[..k]
  }

  lemma AtInBefore(s: string)
    requires '@' in Partition(s, '/').before
    ensures AuthorityHasAt(s)
  {
    var p := Partition(s, '/');
    var k :| 0 <= k < |p.before| && p.before[k] == '@';
    assert p.before <= s && s[k] == '@' && s[..k] == p.before[..k];
  }

  lemma {:induction false} BeforeHasAt(s: string, k: nat)
    requires k < |s| && s[k] == '@' && '/' !in s[..k]
    ensures '@' in Partition(s, '/').before
  {
    if k > 0 {
      assert s[..k][0] == s[0] && s[1..][..k - 1] == s[..k][1..];
      BeforeHasAt(s[1..], k - 1);
    }
  }

  lemma AuthorityHasAtIff(s: string)
    ensures '@' in Partition(s, '/').before <==> AuthorityHasAt(s)
  {
    if '@' in Partition(s, '/').before { AtInBefore(s); }
    if k :| 0 <= k < |s| && s[k] == '@' && '/' !in s[..k] { BeforeHasAt(s, k); }
  }

  /** Refused as already carrying credentials: exactly the servers with credentials that
      have a scheme and, behind it, an '@' ahead of the first '/'. */
  lemma AlreadyCarriesCredentialsIff(server: IceServer)
    ensures ToUrl(server) == Err(AlreadyCarriesCredentials) <==>
              (server.username.Some? || server.credential.Some?) &&
              exists i :: 0 <= i < |server.url| && server.url[i] == ':' && ':' !in server.url[..i]
                          && AuthorityHasAt(server.url[i + 1..])
  {
    var url := server.url;
    var p := Partition(url, ':');
    var n := |p.before|;
    AuthorityHasAtIff(p.after);
    if p.found {
      assert url[n] == ':' && url[n + 1..] == p.after && url[..n] == p.before;
    }
    if i :| 0 <= i < |url| && url[i] == ':' && ':' !in url[..i] && AuthorityHasAt(url[i + 1..]) {
      assert url == url[..i] + [':'] + url[i + 1..];
      PartitionAt(url[..i], ':', url[i + 1..]);
    }
  }
}
