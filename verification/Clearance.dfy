/**
 The challenge clearance cookie: issued with an expiry and a keyed hash, verified without server state. The
 hash (hexadecimal SHA-256) is a parameter; the clock is in whole seconds.
 */
module Clearance {
  import opened Wrappers
  import opened Decimal
  import Text

  predicate IsHex(c: char) { '0' <= c <= '9' || 'a' <= c <= 'f' }

  predicate HexDigest(digest: string) {
    forall i | 0 <= i < |digest| :: IsHex(digest[i])
  }

  /** The text that is hashed. */
  function SignedText(secret: string, zoneId: string, clientIp: string, expiresAt: nat): string {
    secret + "|" + (zoneId + "|" + (clientIp + "|" + FormatNat(expiresAt)))
  }

  function Sign(hash: string -> string, secret: string, zoneId: string, clientIp: string, expiresAt: nat): string {
    hash(SignedText(secret, zoneId, clientIp, expiresAt))
  }

  /** The cookie's value: the expiry and the signature. */
  function CookieText(hash: string -> string, secret: string, zoneId: string, clientIp: string, expiresAt: nat): string {
    FormatNat(expiresAt) + "." + Sign(hash, secret, zoneId, clientIp, expiresAt)
  }

  function Attributes(ttl: nat): string {
    " Path=/" + ";" + (" Max-Age=" + FormatNat(ttl) + ";" + (" HttpOnly" + ";" + " SameSite=Lax"))
  }

  /** The Set-Cookie value; the expiry is a uint64. */
  function Issue(hash: string -> string, cookieName: string, secret: string, zoneId: string, clientIp: string, now: nat, ttl: nat): string {
    cookieName + "=" + CookieText(hash, secret, zoneId, clientIp, (now + ttl) % UINT64_LIMIT) + ";" + Attributes(ttl)
  }

  // ---------------------------------------------------------------- the Cookie header

  /** Unicode white space, as `strings.TrimSpace` strips it. */
  predicate IsSpace(c: char) {
    c in {' ', '\t', '\n', '\U{0B}', '\U{0C}', '\r', '\U{85}', '\U{A0}', '\U{1680}', '\U{2028}', '\U{2029}', '\U{202F}', '\U{205F}', '\U{3000}'}
    || '\U{2000}' <= c <= '\U{200A}'
  }

  function TrimLeft(s: string): string {
    if s != "" && IsSpace(s[0]) then TrimLeft(s[1..]) else s
  }

  function TrimRight(s: string): string {
    if s != "" && IsSpace(s[|s| - 1]) then TrimRight(s[..|s| - 1]) else s
  }

  function TrimSpace(s: string): string {
    TrimRight(TrimLeft(s))
  }

  /** `strings.Split` on a single character. */
  function Split(s: string, sep: char): (parts: seq<string>)
    ensures parts != []
    decreases |s|
  {
    match Text.Cut(s, sep)
    case None => [s]
    case Some((before, after)) => [before] + Split(after, sep)
  }

  function Join(parts: seq<string>, sep: char): string {
    if parts == [] then ""
    else if |parts| == 1 then parts[0]
    else parts[0] + [sep] + Join(parts[1..], sep)
  }

  /** One pair of the header, if it is named `name`. */
  function NamedValue(pair: string, name: string): Option<string> {
    match Text.Cut(TrimSpace(pair), '=')
    case Some((key, value)) => if key == name then Some(value) else None
    case None => None
  }

  /** The first value under `name`. */
  function FirstValue(pairs: seq<string>, name: string): Option<string> {
    if pairs == [] then None
    else if NamedValue(pairs[0], name).Some? then NamedValue(pairs[0], name)
    else FirstValue(pairs[1..], name)
  }

  method CookieValue(header: string, name: string) returns (value: Option<string>)
    ensures value == FirstValue(Split(header, ';'), name)
  {
    var pairs := Split(header, ';');
    for i := 0 to |pairs|
      invariant FirstValue(pairs, name) == FirstValue(pairs[i..], name)
    {
      assert pairs[i..][1..] == pairs[i + 1..];
      var named := NamedValue(pairs[i], name);
      if named.Some? {
        return named;
      }
    }
    return None;
  }

  /** An unexpired value with the right signature. */
  predicate Accepts(hash: string -> string, value: string, secret: string, zoneId: string, clientIp: string, now: nat) {
    match Text.Cut(value, '.')
    case None => false
    case Some((expiresRaw, signature)) =>
      var expiresAt := ParseUint(expiresRaw, UINT64_LIMIT);
      && expiresAt.Some?
      && now < expiresAt.value
      && Sign(hash, secret, zoneId, clientIp, expiresAt.value) == signature
  }

  method Verify(hash: string -> string, header: string, cookieName: string, secret: string, zoneId: string, clientIp: string, now: nat)
    returns (ok: bool)
    ensures ok <==> var v := FirstValue(Split(header, ';'), cookieName);
      v.Some? && Accepts(hash, v.value, secret, zoneId, clientIp, now)
  {
    var value := CookieValue(header, cookieName);
    if value.None? {
      return false;
    }
    var cut := Text.Cut(value.value, '.');
    if cut.None? {
      return false;
    }
    var expiresAt := ParseUint(cut.value.0, UINT64_LIMIT);
    if expiresAt.None? {
      return false;
    }
    if expiresAt.value <= now {
      return false;
    }
    return Sign(hash, secret, zoneId, clientIp, expiresAt.value) == cut.value.1;
  }

  // ---------------------------------------------------------------- print, then parse

  lemma {:induction false} SplitJoined(parts: seq<string>, sep: char)
    requires parts != [] && forall i :: 0 <= i < |parts| ==> sep !in parts[i]
    ensures Split(Join(parts, sep), sep) == parts
  {
    if |parts| == 1 {
    } else {
      SplitJoined(parts[1..], sep);
      Text.CutAtFirst(parts[0], sep, Join(parts[1..], sep));
    }
  }

  lemma {:induction false} FirstNamed(pairs: seq<string>, name: string, i: nat)
    requires i < |pairs| && NamedValue(pairs[i], name).Some?
    requires forall j :: 0 <= j < i ==> NamedValue(pairs[j], name).None?
    ensures FirstValue(pairs, name) == NamedValue(pairs[i], name)
  {
    if i > 0 {
      assert forall j :: 0 <= j < i - 1 ==> pairs[1..][j] == pairs[j + 1];
      FirstNamed(pairs[1..], name, i - 1);
    }
  }

  predicate AllSpace(s: string) {
    forall i | 0 <= i < |s| :: IsSpace(s[i])
  }

  lemma {:induction false} TrimmedLeft(pad: string, s: string)
    requires AllSpace(pad) && (s == "" || !IsSpace(s[0]))
    ensures TrimLeft(pad + s) == s
  {
    if pad == "" {
      assert pad + s == s;
    } else {
      assert (pad + s)[1..] == pad[1..] + s;
      TrimmedLeft(pad[1..], s);
    }
  }

  lemma {:induction false} TrimmedRight(s: string, pad: string)
    requires AllSpace(pad) && (s == "" || !IsSpace(s[|s| - 1]))
    ensures TrimRight(s + pad) == s
  {
    if pad == "" {
      assert s + pad == s;
    } else {
      var t := s + pad;
      assert t[..|t| - 1] == s + pad[..|pad| - 1];
      TrimmedRight(s, pad[..|pad| - 1]);
    }
  }

  /** A cookie name that a pair can be found by: no separator in it, no white space around it. */
  predicate PlainName(name: string) {
    '=' !in name && ';' !in name && (name != "" ==> !IsSpace(name[0]) && !IsSpace(name[|name| - 1]))
  }

  /** A cookie's pair, with any white space around it, is found by its name. */
  lemma PaddedPair(left: string, name: string, value: string, right: string)
    requires AllSpace(left) && AllSpace(right) && PlainName(name)
    requires value != "" && !IsSpace(value[|value| - 1])
    ensures NamedValue(left + (name + "=" + value + right), name) == Some(value)
  {
    var pair := name + "=" + value;
    assert pair + right == name + "=" + value + right;
    assert pair[|pair| - 1] == value[|value| - 1];
    assert !IsSpace((pair + right)[0]) by {
      assert (pair + right)[0] == if name == "" then '=' else name[0];
    }
    TrimmedLeft(left, pair + right);
    TrimmedRight(pair, right);
    Text.CutAtFirst(name, '=', value);
    assert name + ['='] + value == pair;
  }

  lemma PlainDigits(n: nat)
    ensures forall i :: 0 <= i < |FormatNat(n)| ==> IsDigit(FormatNat(n)[i])
    ensures '.' !in FormatNat(n) && '|' !in FormatNat(n) && ';' !in FormatNat(n)
  {
  }

  /** A freshly printed value is accepted exactly until it expires. */
  lemma PrintedValue(hash: string -> string, secret: string, zoneId: string, clientIp: string, expiresAt: nat, now: nat)
    requires expiresAt < UINT64_LIMIT
    ensures Accepts(hash, CookieText(hash, secret, zoneId, clientIp, expiresAt), secret, zoneId, clientIp, now) <==> now < expiresAt
  {
    var signature := Sign(hash, secret, zoneId, clientIp, expiresAt);
    PlainDigits(expiresAt);
    Text.CutAtFirst(FormatNat(expiresAt), '.', signature);
    assert FormatNat(expiresAt) + ['.'] + signature == CookieText(hash, secret, zoneId, clientIp, expiresAt);
    FormatParseUint(expiresAt, UINT64_LIMIT);
  }

  lemma ValueEndsPlainly(hash: string -> string, secret: string, zoneId: string, clientIp: string, expiresAt: nat)
    requires HexDigest(Sign(hash, secret, zoneId, clientIp, expiresAt))
    ensures var v := CookieText(hash, secret, zoneId, clientIp, expiresAt); v != "" && !IsSpace(v[|v| - 1])
  {
    var signature := Sign(hash, secret, zoneId, clientIp, expiresAt);
    var v := CookieText(hash, secret, zoneId, clientIp, expiresAt);
    assert v[|v| - 1] == if signature == "" then '.' else signature[|signature| - 1];
  }

  /** A padded pair is found in the header when no earlier pair has its name. */
  lemma FoundInHeader(pairs: seq<string>, i: nat, left: string, name: string, value: string, right: string)
    requires PlainName(name) && AllSpace(left) && AllSpace(right) && value != "" && !IsSpace(value[|value| - 1])
    requires i < |pairs| && forall j :: 0 <= j < |pairs| ==> ';' !in pairs[j]
    requires pairs[i] == left + (name + "=" + value + right)
    requires forall j :: 0 <= j < i ==> NamedValue(pairs[j], name).None?
    ensures FirstValue(Split(Join(pairs, ';'), ';'), name) == Some(value)
  {
    SplitJoined(pairs, ';');
    PaddedPair(left, name, value, right);
    FirstNamed(pairs, name, i);
  }

  /**
   A cookie issued at `now` for `ttl` seconds and sent back anywhere in a Cookie header, padded by any white
   space and with no earlier pair of its name, is accepted at time `t` if and only if t < now + ttl.
   */
  lemma ClearanceRoundTrip(hash: string -> string, name: string, secret: string, zoneId: string, clientIp: string, now: nat, ttl: nat,
                           pairs: seq<string>, i: nat, left: string, right: string, t: nat)
    requires PlainName(name) && now + ttl < UINT64_LIMIT
    requires HexDigest(Sign(hash, secret, zoneId, clientIp, now + ttl))
    requires i < |pairs| && forall j :: 0 <= j < |pairs| ==> ';' !in pairs[j]
    requires AllSpace(left) && AllSpace(right)
    requires pairs[i] == left + (name + "=" + CookieText(hash, secret, zoneId, clientIp, now + ttl) + right)
    requires forall j :: 0 <= j < i ==> NamedValue(pairs[j], name).None?
    ensures var v := FirstValue(Split(Join(pairs, ';'), ';'), name);
      (v.Some? && Accepts(hash, v.value, secret, zoneId, clientIp, t)) <==> t < now + ttl
  {
    ValueEndsPlainly(hash, secret, zoneId, clientIp, now + ttl);
    FoundInHeader(pairs, i, left, name, CookieText(hash, secret, zoneId, clientIp, now + ttl), right);
    PrintedValue(hash, secret, zoneId, clientIp, now + ttl, t);
  }

  lemma NoSeparatorInside(hash: string -> string, secret: string, zoneId: string, clientIp: string, expiresAt: nat)
    requires HexDigest(Sign(hash, secret, zoneId, clientIp, expiresAt))
    ensures ';' !in CookieText(hash, secret, zoneId, clientIp, expiresAt)
  {
    var a, b := FormatNat(expiresAt), Sign(hash, secret, zoneId, clientIp, expiresAt);
    PlainDigits(expiresAt);
    assert ';' !in a && ';' !in b;
  }

  lemma IssuedText(pair: string, attributes: string, name: string, value: string)
    requires pair == name + "=" + value
    ensures name + "=" + value + ";" + attributes == pair + [';'] + attributes
  {
  }

  /** The browser sends back the text up to the first attribute: that is the pair that was issued. */
  lemma IssuedPair(hash: string -> string, name: string, secret: string, zoneId: string, clientIp: string, now: nat, ttl: nat)
    requires PlainName(name) && now + ttl < UINT64_LIMIT
    requires HexDigest(Sign(hash, secret, zoneId, clientIp, now + ttl))
    ensures Split(Issue(hash, name, secret, zoneId, clientIp, now, ttl), ';')[0]
      == name + "=" + CookieText(hash, secret, zoneId, clientIp, now + ttl)
  {
    IssuedAttributes(hash, name, secret, zoneId, clientIp, now, ttl);
  }

  /** A Set-Cookie value has five parts: the pair, then the path, the lifetime in seconds and two flags. */
  lemma IssuedAttributes(hash: string -> string, name: string, secret: string, zoneId: string, clientIp: string, now: nat, ttl: nat)
    requires PlainName(name) && now + ttl < UINT64_LIMIT
    requires HexDigest(Sign(hash, secret, zoneId, clientIp, now + ttl))
    ensures Split(Issue(hash, name, secret, zoneId, clientIp, now, ttl), ';')
      == [name + "=" + CookieText(hash, secret, zoneId, clientIp, now + ttl)] + [" Path=/", " Max-Age=" + FormatNat(ttl), " HttpOnly", " SameSite=Lax"]
    ensures ParseUint(FormatNat(ttl), UINT64_LIMIT) == Some(ttl)
  {
    var value := CookieText(hash, secret, zoneId, clientIp, now + ttl);
    FormatParseUint(ttl, UINT64_LIMIT);
    NoSeparatorInside(hash, secret, zoneId, clientIp, now + ttl);
    AttributesSplit(ttl);
    IssueReads(hash, name, secret, zoneId, clientIp, now, ttl);
    SplitIssued(Issue(hash, name, secret, zoneId, clientIp, now, ttl), name, value, Attributes(ttl),
                [" Path=/", " Max-Age=" + FormatNat(ttl), " HttpOnly", " SameSite=Lax"]);
  }

  lemma IssueReads(hash: string -> string, name: string, secret: string, zoneId: string, clientIp: string, now: nat, ttl: nat)
    requires now + ttl < UINT64_LIMIT
    ensures Issue(hash, name, secret, zoneId, clientIp, now, ttl)
      == name + "=" + CookieText(hash, secret, zoneId, clientIp, now + ttl) + ";" + Attributes(ttl)
  {
    assert (now + ttl) % UINT64_LIMIT == now + ttl;
  }

  lemma SplitIssued(issued: string, name: string, value: string, attributes: string, parts: seq<string>)
    requires issued == name + "=" + value + ";" + attributes && ';' !in name && ';' !in value
    requires Split(attributes, ';') == parts
    ensures Split(issued, ';') == [name + "=" + value] + parts
  {
    var pair := name + "=" + value;
    IssuedText(pair, attributes, name, value);
    SplitNext(pair, ';', attributes);
  }

  lemma SplitNext(part: string, sep: char, rest: string)
    requires sep !in part
    ensures Split(part + [sep] + rest, sep) == [part] + Split(rest, sep)
  {
    Text.CutAtFirst(part, sep, rest);
  }

  lemma ThreeParts(a: string, b: string, c: string, sep: char)
    requires sep !in a && sep !in b && sep !in c
    ensures Split(a + [sep] + (b + [sep] + c), sep) == [a, b, c]
  {
    SplitNext(a, sep, b + [sep] + c);
    SplitNext(b, sep, c);
    assert Split(c, sep) == [c];
    assert [a] + ([b] + [c]) == [a, b, c];
  }

  lemma FourParts(a: string, b: string, c: string, d: string, sep: char)
    requires sep !in a && sep !in b && sep !in c && sep !in d
    ensures Split(a + [sep] + (b + [sep] + (c + [sep] + d)), sep) == [a, b, c, d]
  {
    ThreeParts(b, c, d, sep);
    SplitNext(a, sep, b + [sep] + (c + [sep] + d));
    assert [a] + [b, c, d] == [a, b, c, d];
  }

  lemma AttributesSplit(ttl: nat)
    ensures Split(Attributes(ttl), ';') == [" Path=/", " Max-Age=" + FormatNat(ttl), " HttpOnly", " SameSite=Lax"]
  {
    PlainDigits(ttl);
    FourParts(" Path=/", " Max-Age=" + FormatNat(ttl), " HttpOnly", " SameSite=Lax", ';');
  }

  // ---------------------------------------------------------------- what a signature binds

  lemma CutEqually(a: string, b: string, c: string, d: string)
    requires '|' !in a && '|' !in c && a + "|" + b == c + "|" + d
    ensures a == c && b == d
  {
    Text.CutAtFirst(a, '|', b);
    Text.CutAtFirst(c, '|', d);
    assert a + ['|'] + b == a + "|" + b && c + ['|'] + d == c + "|" + d;
  }

  /** For one secret, the signed text determines the zone, the client and the expiry. */
  lemma SignedTextInjective(secret: string, z1: string, c1: string, e1: nat, z2: string, c2: string, e2: nat)
    requires '|' !in z1 && '|' !in z2 && '|' !in c1 && '|' !in c2
    requires SignedText(secret, z1, c1, e1) == SignedText(secret, z2, c2, e2)
    ensures z1 == z2 && c1 == c2 && e1 == e2
  {
    var t1, t2 := z1 + "|" + (c1 + "|" + FormatNat(e1)), z2 + "|" + (c2 + "|" + FormatNat(e2));
    var n := |secret| + 1;
    assert SignedText(secret, z1, c1, e1)[n..] == t1 && SignedText(secret, z2, c2, e2)[n..] == t2;
    CutEqually(z1, c1 + "|" + FormatNat(e1), z2, c2 + "|" + FormatNat(e2));
    CutEqually(c1, FormatNat(e1), c2, FormatNat(e2));
    FormatInjective(e1, e2);
  }

  /**
   A signature issued for one zone, client and expiry, presented with any expiry to any zone by any client,
   is accepted only as it was issued and before it expires, unless the hash collides on the two signed texts.
   */
  lemma CookieIsBound(hash: string -> string, secret: string, z1: string, c1: string, e1: nat, z2: string, c2: string, e2: nat, now: nat)
    requires '|' !in z1 && '|' !in z2 && '|' !in c1 && '|' !in c2 && e2 < UINT64_LIMIT
    requires SignedText(secret, z1, c1, e1) == SignedText(secret, z2, c2, e2)
      || Sign(hash, secret, z1, c1, e1) != Sign(hash, secret, z2, c2, e2)
    ensures Accepts(hash, FormatNat(e2) + "." + Sign(hash, secret, z1, c1, e1), secret, z2, c2, now)
      <==> z1 == z2 && c1 == c2 && e1 == e2 && now < e2
  {
    var signature := Sign(hash, secret, z1, c1, e1);
    PlainDigits(e2);
    Text.CutAtFirst(FormatNat(e2), '.', signature);
    assert FormatNat(e2) + ['.'] + signature == FormatNat(e2) + "." + signature;
    FormatParseUint(e2, UINT64_LIMIT);
    if Sign(hash, secret, z2, c2, e2) == signature {
      SignedTextInjective(secret, z1, c1, e1, z2, c2, e2);
    }
  }

  /** The hashed text, part by part. */
  lemma SignedTextReads(secret: string, zoneId: string, clientIp: string, expiresAt: nat)
    requires '|' !in secret && '|' !in zoneId && '|' !in clientIp
    ensures Split(SignedText(secret, zoneId, clientIp, expiresAt), '|') == [secret, zoneId, clientIp, FormatNat(expiresAt)]
  {
    PlainDigits(expiresAt);
    FourParts(secret, zoneId, clientIp, FormatNat(expiresAt), '|');
  }

  /** Blanks and tabs may pad a pair; no visible ASCII character is taken for padding. */
  lemma PaddingIs(c: char)
    ensures c == ' ' || c == '\t' ==> IsSpace(c)
    ensures '!' <= c <= '~' ==> !IsSpace(c)
  {
  }
}
