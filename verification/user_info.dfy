/**
 * The header's `UserInfo`: `parseJwt` (take the payload segment of the token,
 * turn base64url into padded base64, decode it and read it as JSON) and the
 * effect that picks the displayed name, email and avatar from the payload, or
 * else from the user stored at login.
 *
 * `atob`, `decodeURIComponent` and `JSON.parse` are not modelled: they are
 * passed in as possibly-failing functions (`None` where they would throw).
 */
module UserInfo {
  import opened Wrappers

  // ---------------------------------------------------------------------
  // Splitting the token
  // ---------------------------------------------------------------------

  /** `s.split(sep)` for a one-character separator. */
  function Split(s: string, sep: char): (parts: seq<string>)
    ensures |parts| >= 1
    ensures forall i :: 0 <= i < |parts| ==> sep !in parts[i]
  {
    if s == [] then [""]
    else
      var rest := Split(s[1..], sep);
      if s[0] == sep then [""] + rest
      else
        assert forall i :: 1 <= i < |rest| ==> sep !in rest[i];
        [[s[0]] + rest[0]] + rest[1..]
  }

  /** `parts.join(sep)` */
  function Join(parts: seq<string>, sep: char): string
    requires |parts| >= 1
  {
    if |parts| == 1 then parts[0] else parts[0] + [sep] + Join(parts[1..], sep)
  }

  /** Splitting loses nothing: joining the parts back gives the original string. */
  lemma {:induction false} SplitJoin(s: string, sep: char)
    ensures Join(Split(s, sep), sep) == s
  {
    if s != [] {
      SplitJoin(s[1..], sep);
      var rest := Split(s[1..], sep);
      if s[0] == sep {
        assert Split(s, sep) == [""] + rest;
        assert ([""] + rest)[1..] == rest;
        assert s == [sep] + s[1..];
      } else {
        var parts := Split(s, sep);
        assert parts[0] == [s[0]] + rest[0];
        if |rest| > 1 {
          assert parts[1..] == rest[1..];
        }
        assert s == [s[0]] + s[1..];
      }
    }
  }

  /** A string splits into at least two parts exactly when it contains the separator. */
  lemma {:induction false} SplitHasTwoParts(s: string, sep: char)
    ensures |Split(s, sep)| >= 2 <==> sep in s
  {
    if s != [] {
      SplitHasTwoParts(s[1..], sep);
      assert sep in s <==> s[0] == sep || sep in s[1..] by {
        assert s == [s[0]] + s[1..];
      }
    }
  }

  /** A part without the separator, followed by nothing or by the separator, is split off whole. */
  lemma {:induction false} SplitAfterPart(h: string, t: string, sep: char)
    requires sep !in h && (t == [] || t[0] == sep)
    ensures Split(h + t, sep) == if t == [] then [h] else [h] + Split(t[1..], sep)
  {
    if h == [] {
      assert h + t == t;
    } else {
      assert (h + t)[1..] == h[1..] + t;
      SplitAfterPart(h[1..], t, sep);
      assert h == [h[0]] + h[1..];
    }
  }

  // ---------------------------------------------------------------------
  // base64url to base64
  // ---------------------------------------------------------------------

  /** `s.replace(/from/g, to)` for single characters. */
  function ReplaceAll(s: string, from: char, to: char): (r: string)
    ensures |r| == |s|
    ensures forall i :: 0 <= i < |s| ==> r[i] == if s[i] == from then to else s[i]
  {
    if s == [] then [] else [if s[0] == from then to else s[0]] + ReplaceAll(s[1..], from, to)
  }

  /** `b64.replace(/-/g, "+").replace(/_/g, "/")` */
  function Normalize(s: string): (r: string)
    ensures |r| == |s|
    ensures forall i :: 0 <= i < |s| ==>
      r[i] == (if s[i] == '-' then '+' else if s[i] == '_' then '/' else s[i])
  {
    ReplaceAll(ReplaceAll(s, '-', '+'), '_', '/')
  }

  /** The characters of the base64 alphabet (section 4 of RFC 4648), without padding. */
  predicate IsBase64Char(c: char) {
    'A' <= c <= 'Z' || 'a' <= c <= 'z' || '0' <= c <= '9' || c == '+' || c == '/'
  }

  /** The characters of the base64url alphabet (section 5 of RFC 4648). */
  predicate IsBase64UrlChar(c: char) {
    'A' <= c <= 'Z' || 'a' <= c <= 'z' || '0' <= c <= '9' || c == '-' || c == '_'
  }

  /** The reverse mapping, base64 to base64url. */
  function UrlSafe(s: string): (r: string)
    ensures |r| == |s|
    ensures forall i :: 0 <= i < |s| ==>
      r[i] == (if s[i] == '+' then '-' else if s[i] == '/' then '_' else s[i])
  {
    ReplaceAll(ReplaceAll(s, '+', '-'), '/', '_')
  }

  /** On a base64url segment, normalising gives base64 text, and it can be undone. */
  lemma NormalizeRoundTrip(s: string)
    requires forall i :: 0 <= i < |s| ==> IsBase64UrlChar(s[i])
    ensures forall i :: 0 <= i < |s| ==> IsBase64Char(Normalize(s)[i])
    ensures UrlSafe(Normalize(s)) == s
  {
  }

  /** `"=".repeat(n)` */
  function Repeat(c: char, n: nat): (r: string)
    ensures |r| == n
    ensures forall i :: 0 <= i < n ==> r[i] == c
  {
    if n == 0 then [] else [c] + Repeat(c, n - 1)
  }

  /** Pads with "=" up to a multiple of four characters. */
  function Pad(s: string): (r: string)
    ensures |r| % 4 == 0
    ensures |s| <= |r| <= |s| + 3
    ensures r[..|s|] == s
    ensures forall i :: |s| <= i < |r| ==> r[i] == '='
    ensures |s| % 4 == 0 ==> r == s
  {
    var pad := |s| % 4;
    if pad != 0 then s + Repeat('=', 4 - pad) else s
  }

  // ---------------------------------------------------------------------
  // Re-encoding decoded characters as %hh
  // ---------------------------------------------------------------------

  /** A lower-case hexadecimal digit character. */
  predicate IsHexDigit(c: char) {
    ('0' <= c <= '9') || ('a' <= c <= 'f')
  }

  /** A lower-case hexadecimal digit. */
  function HexDigit(d: nat): (c: char)
    requires d < 16
    ensures IsHexDigit(c)
  {
    if d < 10 then ('0' as int + d) as char else ('a' as int + d - 10) as char
  }

  /** The value of a lower-case hexadecimal digit. */
  function HexValue(c: char): (d: nat)
    requires IsHexDigit(c)
    ensures d < 16
  {
    if c <= '9' then c as int - '0' as int else c as int - 'a' as int + 10
  }

  /** The number a string of lower-case hexadecimal digits denotes, most significant digit first. */
  function NumeralValue(s: string): nat
    requires forall i :: 0 <= i < |s| ==> IsHexDigit(s[i])
  {
    if s == [] then 0 else NumeralValue(s[..|s| - 1]) * 16 + HexValue(s[|s| - 1])
  }

  /** `n.toString(16)`: the base-16 numeral of `n`, without leading zeros. */
  function ToHex(n: nat): (r: string)
    ensures |r| >= 1
    ensures forall i :: 0 <= i < |r| ==> IsHexDigit(r[i])
    ensures NumeralValue(r) == n
    ensures |r| > 1 ==> r[0] != '0'
    ensures r[|r| - 1] == HexDigit(n % 16)
    ensures n >= 16 ==> |r| >= 2 && r[|r| - 2] == HexDigit((n / 16) % 16)
    ensures n < 16 <==> |r| == 1
  {
    if n < 16 then
      HexRoundTrip(n);
      [HexDigit(n)]
    else
      var h := ToHex(n / 16);
      var r := h + [HexDigit(n % 16)];
      assert r[..|r| - 1] == h;
      HexRoundTrip(n % 16);
      r
  }

  /** `"%" + ("00" + c.charCodeAt(0).toString(16)).slice(-2)` */
  function PercentByte(c: char): (r: string)
    ensures |r| == 3 && r[0] == '%'
  {
    var hex := "00" + ToHex(c as nat);
    "%" + hex[|hex| - 2..]
  }

  /** The escape is always '%' and two hex digits, which are the low byte of the character code. */
  lemma PercentByteDigits(c: char)
    ensures var e := PercentByte(c);
            |e| == 3 && e[0] == '%' &&
            e[1] == HexDigit((c as nat / 16) % 16) && e[2] == HexDigit(c as nat % 16)
  {
    var n := c as nat;
    var h := ToHex(n);
    var hex := "00" + h;
    var e := PercentByte(c);
    assert e[1] == hex[|hex| - 2] && e[2] == hex[|hex| - 1];
    assert hex[|hex| - 1] == h[|h| - 1];
    if n >= 16 {
      assert hex[|hex| - 2] == h[|h| - 2];
    } else {
      assert hex[|hex| - 2] == '0';
    }
  }

  /** `decoded.split("").map(PercentByte).join("")` */
  function PercentEncode(s: string): (r: string)
    ensures |r| == 3 * |s|
  {
    if s == [] then [] else (PercentByteDigits(s[0]); PercentByte(s[0]) + PercentEncode(s[1..]))
  }

  /**
   * A reference reader of `%hh` escapes that turns each escape into the one
   * character with that code (Latin-1). It is not `decodeURIComponent`, which
   * reads the escapes as UTF-8 (so `%c3%a9` is one character); it serves to
   * show that the re-encoding loses nothing.
   */
  function PercentDecode(t: string): Option<string>
    decreases |t|
  {
    if t == [] then Some([])
    else if |t| < 3 || t[0] != '%' then None
    else if !IsHexDigit(t[1]) || !IsHexDigit(t[2]) then None
    else match PercentDecode(t[3..])
      case None => None
      case Some(rest) => Some([(HexValue(t[1]) * 16 + HexValue(t[2])) as char] + rest)
  }

  lemma HexRoundTrip(d: nat)
    requires d < 16
    ensures HexValue(HexDigit(d)) == d
  {
  }

  /** One escape of a character below 256 decodes back to that character. */
  lemma DecodeOneEscape(c: char, t: string)
    requires (c as int) < 256
    ensures PercentDecode(PercentByte(c) + t) ==
      match PercentDecode(t)
      case None => None
      case Some(rest) => Some([c] + rest)
  {
    var n := c as nat;
    var e := PercentByte(c);
    PercentByteDigits(c);
    HexRoundTrip((n / 16) % 16);
    HexRoundTrip(n % 16);
    var u := e + t;
    assert u[0] == '%' && u[1] == e[1] && u[2] == e[2];
    assert u[3..] == t;
    assert (n / 16) % 16 * 16 + n % 16 == n;
  }

  /**
   * The `%hh` re-encoding loses nothing: every character below 256 (every
   * character `atob` yields) can be read back from its escape by the Latin-1
   * reader `PercentDecode`. What `decodeURIComponent` then makes of the bytes is
   * the `decodeUri` decoder's part.
   */
  lemma {:induction false} PercentRoundTrip(s: string)
    requires forall i :: 0 <= i < |s| ==> (s[i] as int) < 256
    ensures PercentDecode(PercentEncode(s)) == Some(s)
  {
    if s != [] {
      var t := PercentEncode(s[1..]);
      PercentRoundTrip(s[1..]);
      DecodeOneEscape(s[0], t);
      assert PercentEncode(s) == PercentByte(s[0]) + t;
      assert [s[0]] + s[1..] == s;
    }
  }

  // ---------------------------------------------------------------------
  // parseJwt
  // ---------------------------------------------------------------------

  /** The `user` object some tokens nest their claims in. */
  datatype NestedUser = NestedUser(name: Option<string>, fullName: Option<string>, email: Option<string>, avatar: Option<string>)

  /**
   * The token payload. `None` stands for a claim that is missing, null or not a
   * string; a payload that is a truthy non-object has every claim `None`.
   */
  datatype Payload = Payload(
    name: Option<string>, fullName: Option<string>, username: Option<string>,
    email: Option<string>, avatar: Option<string>, picture: Option<string>,
    profilePicture: Option<string>, user: Option<NestedUser>)

  /** The user record stored at login, read back by `JSON.parse`. */
  datatype StoredProfile = StoredProfile(name: Option<string>, email: Option<string>, img: Option<string>)

  /** The library functions the component calls; `None` where they throw (or, for the parsers, give a falsy value). */
  datatype Decoders = Decoders(
    atob: string -> Option<string>,
    decodeUri: string -> Option<string>,
    parseClaims: string -> Option<Payload>,
    parseStored: string -> Option<StoredProfile>)

  /** `!!token` */
  predicate Truthy(v: Option<string>) {
    v.Some? && v.value != ""
  }

  /** The padded base64 text handed to `atob`, or `None` when `parseJwt` returns null before decoding. */
  function PayloadSegment(token: Option<string>): (r: Option<string>)
    ensures r.Some? <==> Truthy(token) && '.' in token.value
    ensures r.Some? ==> |r.value| % 4 == 0
  {
    if !Truthy(token) then None
    else
      var parts := Split(token.value, '.');
      SplitHasTwoParts(token.value, '.');
      if |parts| < 2 then None else Some(Pad(Normalize(parts[1])))
  }

  /**
   * `parseJwt(token)`: the payload segment goes through `atob`, the `%hh`
   * re-encoding, `decodeURIComponent` and `JSON.parse`; the first step that
   * fails (throws) makes the result null.
   */
  function ParseJwt(token: Option<string>, dec: Decoders): (r: Option<Payload>)
    ensures !Truthy(token) ==> r.None?
    ensures r.Some? ==> PayloadSegment(token).Some?
    ensures r.Some? <==>
      (PayloadSegment(token).Some? && dec.atob(PayloadSegment(token).value).Some? &&
       dec.decodeUri(PercentEncode(dec.atob(PayloadSegment(token).value).value)).Some? &&
       dec.parseClaims(dec.decodeUri(PercentEncode(dec.atob(PayloadSegment(token).value).value)).value).Some?)
    ensures r.Some? ==>
      r == dec.parseClaims(dec.decodeUri(PercentEncode(dec.atob(PayloadSegment(token).value).value)).value)
  {
    match PayloadSegment(token)
    case None => None
    case Some(padded) =>
      match dec.atob(padded)
      case None => None
      case Some(decoded) =>
        match dec.decodeUri(PercentEncode(decoded))
        case None => None
        case Some(json) => dec.parseClaims(json)
  }

  /**
   * The text decoded is the second segment, made base64 and padded: for
   * `header.payload` and for `header.payload.signature` alike.
   */
  lemma PayloadIsSecondSegment(header: string, payload: string, tail: string)
    requires '.' !in header && '.' !in payload
    requires tail == [] || tail[0] == '.'
    ensures PayloadSegment(Some(header + "." + payload + tail)) == Some(Pad(Normalize(payload)))
  {
    var rest := "." + payload + tail;
    var token := header + rest;
    assert header + "." + payload + tail == token;
    SplitAfterPart(header, rest, '.');
    assert rest[1..] == payload + tail;
    SplitAfterPart(payload, tail, '.');
    var parts := Split(token, '.');
    assert parts[1] == payload;
    assert token[|header|] == '.';
  }

  // ---------------------------------------------------------------------
  // Picking name, email and avatar
  // ---------------------------------------------------------------------

  /** `a || b` */
  function Or(a: Option<string>, b: Option<string>): Option<string> {
    if Truthy(a) then a else b
  }

  /** `x ?? fallback` */
  function Coalesce(x: Option<string>, fallback: string): string {
    x.GetOr(fallback)
  }

  /** `c[0] || c[1] || ... || last` */
  function FirstTruthy(candidates: seq<Option<string>>, last: Option<string>): (r: Option<string>)
    ensures (forall i :: 0 <= i < |candidates| ==> !Truthy(candidates[i])) ==> r == last
    ensures (exists i :: 0 <= i < |candidates| && Truthy(candidates[i])) ==>
      exists i :: 0 <= i < |candidates| && Truthy(candidates[i]) && r == candidates[i] &&
        forall j :: 0 <= j < i ==> !Truthy(candidates[j])
  {
    if candidates == [] then last
    else if Truthy(candidates[0]) then candidates[0]
    else
      var r := FirstTruthy(candidates[1..], last);
      assert forall i :: 1 <= i < |candidates| ==> candidates[i] == candidates[1..][i - 1];
      assert (exists i :: 0 <= i < |candidates| - 1 && Truthy(candidates[1..][i])) ==>
        exists i :: 0 <= i < |candidates| && Truthy(candidates[i]) && r == candidates[i] &&
          forall j :: 0 <= j < i ==> !Truthy(candidates[j]) by {
        if exists i :: 0 <= i < |candidates| - 1 && Truthy(candidates[1..][i]) {
          var i :| 0 <= i < |candidates| - 1 && Truthy(candidates[1..][i]) && r == candidates[1..][i] &&
            forall j :: 0 <= j < i ==> !Truthy(candidates[1..][j]);
          assert candidates[i + 1] == candidates[1..][i];
        }
      }
      r
  }

  /**
   * For `header.payload` or `header.payload.signature`, the payload decodes to
   * `v` exactly when each of the three decoders succeeds on the payload
   * segment in turn, and any step that fails gives no payload.
   */
  lemma ParseJwtDecodesPayload(header: string, payload: string, tail: string, dec: Decoders, v: Payload)
    requires '.' !in header && '.' !in payload
    requires tail == [] || tail[0] == '.'
    ensures var token := Some(header + "." + payload + tail);
            var seg := Pad(Normalize(payload));
            (ParseJwt(token, dec) == Some(v) <==>
              exists d: string, j: string {:trigger dec.decodeUri(PercentEncode(d)), dec.parseClaims(j)} ::
                dec.atob(seg) == Some(d) && dec.decodeUri(PercentEncode(d)) == Some(j) && dec.parseClaims(j) == Some(v)) &&
            (dec.atob(seg).None? ==> ParseJwt(token, dec).None?) &&
            (dec.atob(seg).Some? && dec.decodeUri(PercentEncode(dec.atob(seg).value)).None? ==> ParseJwt(token, dec).None?) &&
            ((dec.atob(seg).Some? && dec.decodeUri(PercentEncode(dec.atob(seg).value)).Some? &&
              dec.parseClaims(dec.decodeUri(PercentEncode(dec.atob(seg).value)).value).None?) ==> ParseJwt(token, dec).None?)
  {
    var token := Some(header + "." + payload + tail);
    var seg := Pad(Normalize(payload));
    PayloadIsSecondSegment(header, payload, tail);
    if ParseJwt(token, dec) == Some(v) {
      var d := dec.atob(seg).value;
      var j := dec.decodeUri(PercentEncode(d)).value;
      assert dec.atob(seg) == Some(d) && dec.decodeUri(PercentEncode(d)) == Some(j) && dec.parseClaims(j) == Some(v);
    }
    forall d: string, j: string |
      dec.atob(seg) == Some(d) && dec.decodeUri(PercentEncode(d)) == Some(j) && dec.parseClaims(j) == Some(v)
      ensures ParseJwt(token, dec) == Some(v)
    {
      assert PayloadSegment(token) == Some(seg);
    }
    assert (exists d: string, j: string {:trigger dec.decodeUri(PercentEncode(d)), dec.parseClaims(j)} ::
                dec.atob(seg) == Some(d) && dec.decodeUri(PercentEncode(d)) == Some(j) && dec.parseClaims(j) == Some(v)) ==> ParseJwt(token, dec) == Some(v);
    assert ParseJwt(token, dec) == Some(v) ==> exists d: string, j: string {:trigger dec.decodeUri(PercentEncode(d)), dec.parseClaims(j)} ::
                dec.atob(seg) == Some(d) && dec.decodeUri(PercentEncode(d)) == Some(j) && dec.parseClaims(j) == Some(v);
    assert dec.atob(seg).None? ==> ParseJwt(token, dec).None?;
  }

  /** The candidate picked is the first truthy one. */
  lemma FirstTruthyPicks(candidates: seq<Option<string>>, last: Option<string>, i: nat)
    requires i < |candidates| && Truthy(candidates[i])
    requires forall j :: 0 <= j < i ==> !Truthy(candidates[j])
    ensures FirstTruthy(candidates, last) == candidates[i]
  {
    var r := FirstTruthy(candidates, last);
    var i' :| 0 <= i' < |candidates| && Truthy(candidates[i']) && r == candidates[i'] &&
      forall j :: 0 <= j < i' ==> !Truthy(candidates[j]);
    assert i' == i;
  }

  function NestedName(p: Payload): Option<string> {
    if p.user.Some? then p.user.value.name else None
  }

  function NestedFullName(p: Payload): Option<string> {
    if p.user.Some? then p.user.value.fullName else None
  }

  function NestedEmail(p: Payload): Option<string> {
    if p.user.Some? then p.user.value.email else None
  }

  function NestedAvatar(p: Payload): Option<string> {
    if p.user.Some? then p.user.value.avatar else None
  }

  /** `email.split("@")[0]` when `email` is truthy. */
  function EmailLocalPart(email: Option<string>): Option<string> {
    if Truthy(email) then Some(Split(email.value, '@')[0]) else None
  }

  /** The name candidate: the first truthy of name, fullName, username, user.name, user.fullName, else the e-mail's local part. */
  function NameCandidate(p: Payload): (r: Option<string>)
    ensures r.Some? <==> Truthy(p.name) || Truthy(p.fullName) || Truthy(p.username) ||
                         Truthy(NestedName(p)) || Truthy(NestedFullName(p)) || Truthy(p.email)
  {
    ghost var cands := [p.name, p.fullName, p.username, NestedName(p), NestedFullName(p)];
    assert Truthy(p.name) || Truthy(p.fullName) || Truthy(p.username) || Truthy(NestedName(p)) || Truthy(NestedFullName(p))
      <==> exists i :: 0 <= i < |cands| && Truthy(cands[i]) by {
      if exists i :: 0 <= i < |cands| && Truthy(cands[i]) {
        var i :| 0 <= i < |cands| && Truthy(cands[i]);
        assert i == 0 || i == 1 || i == 2 || i == 3 || i == 4;
      }
      if Truthy(p.name) { assert Truthy(cands[0]); }
      if Truthy(p.fullName) { assert Truthy(cands[1]); }
      if Truthy(p.username) { assert Truthy(cands[2]); }
      if Truthy(NestedName(p)) { assert Truthy(cands[3]); }
      if Truthy(NestedFullName(p)) { assert Truthy(cands[4]); }
    }
    FirstTruthy([p.name, p.fullName, p.username, NestedName(p), NestedFullName(p)], EmailLocalPart(p.email))
  }

  /** `email || user?.email` */
  function EmailCandidate(p: Payload): (r: Option<string>)
    ensures Truthy(p.email) ==> r == p.email
    ensures !Truthy(p.email) ==> r == NestedEmail(p)
  {
    Or(p.email, NestedEmail(p))
  }

  /** `avatar || picture || profile_picture || user?.avatar` */
  function ImgCandidate(p: Payload): (r: Option<string>)
    ensures Truthy(p.avatar) ==> r == p.avatar
    ensures !Truthy(p.avatar) && Truthy(p.picture) ==> r == p.picture
    ensures !Truthy(p.avatar) && !Truthy(p.picture) && Truthy(p.profilePicture) ==> r == p.profilePicture
    ensures !Truthy(p.avatar) && !Truthy(p.picture) && !Truthy(p.profilePicture) ==> r == NestedAvatar(p)
  {
    var cands := [p.avatar, p.picture, p.profilePicture];
    if !Truthy(p.avatar) && Truthy(p.picture) then
      FirstTruthyPicks(cands, NestedAvatar(p), 1);
      FirstTruthy(cands, NestedAvatar(p))
    else if !Truthy(p.avatar) && !Truthy(p.picture) && Truthy(p.profilePicture) then
      FirstTruthyPicks(cands, NestedAvatar(p), 2);
      FirstTruthy(cands, NestedAvatar(p))
    else
      FirstTruthy(cands, NestedAvatar(p))
  }

  /** What the header shows. */
  datatype Profile = Profile(name: string, email: string, img: string)

  /** The state before the effect has run. */
  const DefaultProfile := Profile("John Smith", "johnson@nextadmin.com", "/images/user/user-03.png")

  /**
   * The mount effect: the token is the `auth_token` cookie or else the `token`
   * cookie; a decodable payload decides, else a parsable stored user, else
   * nothing changes.
   */
  function Refresh(authToken: Option<string>, legacyToken: Option<string>, stored: Option<string>,
                   prev: Profile, dec: Decoders): (r: Profile)
    ensures !Truthy(authToken) && !Truthy(legacyToken) && !Truthy(stored) ==> r == prev
  {
    match ParseJwt(Or(authToken, legacyToken), dec)
    case Some(p) =>
      Profile(Coalesce(NameCandidate(p), prev.name), Coalesce(EmailCandidate(p), prev.email),
        Coalesce(ImgCandidate(p), prev.img))
    case None =>
      if !Truthy(stored) then prev
      else match dec.parseStored(stored.value)
        case None => prev
        case Some(sp) => Profile(Coalesce(sp.name, prev.name), Coalesce(sp.email, prev.email), Coalesce(sp.img, prev.img))
  }

  /** The displayed name follows the precedence of the claims; a claim that is absent keeps the previous value. */
  lemma NamePrecedence(p: Payload, prev: Profile)
    ensures Truthy(p.name) ==> NameCandidate(p) == p.name
    ensures !Truthy(p.name) && Truthy(p.fullName) ==> NameCandidate(p) == p.fullName
    ensures !Truthy(p.name) && !Truthy(p.fullName) && Truthy(p.username) ==> NameCandidate(p) == p.username
    ensures !Truthy(p.name) && !Truthy(p.fullName) && !Truthy(p.username) && Truthy(NestedName(p)) ==>
      NameCandidate(p) == NestedName(p)
    ensures (!Truthy(p.name) && !Truthy(p.fullName) && !Truthy(p.username) && !Truthy(NestedName(p)) &&
             Truthy(NestedFullName(p))) ==> NameCandidate(p) == NestedFullName(p)
    ensures (!Truthy(p.name) && !Truthy(p.fullName) && !Truthy(p.username) && !Truthy(NestedName(p)) &&
             !Truthy(NestedFullName(p))) ==> NameCandidate(p) == EmailLocalPart(p.email)
    ensures !Truthy(p.email) ==> EmailLocalPart(p.email) == None
    ensures Truthy(p.email) ==> '@' !in EmailLocalPart(p.email).value
  {
    var cands := [p.name, p.fullName, p.username, NestedName(p), NestedFullName(p)];
    if !Truthy(p.name) && !Truthy(p.fullName) && !Truthy(p.username) && !Truthy(NestedName(p)) && !Truthy(NestedFullName(p)) {
      assert forall i :: 0 <= i < |cands| ==> !Truthy(cands[i]);
    }
    if !Truthy(p.name) && Truthy(p.fullName) {
      assert Truthy(cands[1]);
    }
    if !Truthy(p.name) && !Truthy(p.fullName) && Truthy(p.username) {
      assert Truthy(cands[2]);
    }
    if !Truthy(p.name) && !Truthy(p.fullName) && !Truthy(p.username) && Truthy(NestedName(p)) {
      FirstTruthyPicks(cands, EmailLocalPart(p.email), 3);
    }
    if !Truthy(p.name) && !Truthy(p.fullName) && !Truthy(p.username) && !Truthy(NestedName(p)) && Truthy(NestedFullName(p)) {
      FirstTruthyPicks(cands, EmailLocalPart(p.email), 4);
    }
  }

  /** Each of name, email and avatar keeps its previous value when its candidate is absent. */
  lemma AbsentClaimsKeepPrevious(authToken: Option<string>, legacyToken: Option<string>, stored: Option<string>,
                                 prev: Profile, dec: Decoders)
    ensures var p := ParseJwt(Or(authToken, legacyToken), dec);
            var next := Refresh(authToken, legacyToken, stored, prev, dec);
            p.Some? ==>
              (NameCandidate(p.value).None? ==> next.name == prev.name) &&
              (EmailCandidate(p.value).None? ==> next.email == prev.email) &&
              (ImgCandidate(p.value).None? ==> next.img == prev.img) &&
              (NameCandidate(p.value).Some? ==> next.name == NameCandidate(p.value).value) &&
              (EmailCandidate(p.value).Some? ==> next.email == EmailCandidate(p.value).value) &&
              (ImgCandidate(p.value).Some? ==> next.img == ImgCandidate(p.value).value)
  {
  }

  /** Without a decodable payload, a parsable stored user decides each field, keeping the previous value where it has none. */
  lemma StoredUserFallback(authToken: Option<string>, legacyToken: Option<string>, stored: Option<string>,
                           prev: Profile, dec: Decoders)
    requires ParseJwt(Or(authToken, legacyToken), dec).None?
    ensures var next := Refresh(authToken, legacyToken, stored, prev, dec);
            if Truthy(stored) && dec.parseStored(stored.value).Some? then
              var sp := dec.parseStored(stored.value).value;
              next == Profile(sp.name.GetOr(prev.name), sp.email.GetOr(prev.email), sp.img.GetOr(prev.img))
            else next == prev
  {
  }

  /** The component's `user` state, which the mount effect updates with `setUser`. */
  class Header {
    var user: Profile

    constructor ()
      ensures user == DefaultProfile
    {
      user := DefaultProfile;
    }

    /** The mount effect, with the two cookies and the stored user as arguments. */
    method LoadUser(authToken: Option<string>, legacyToken: Option<string>, stored: Option<string>, dec: Decoders)
      modifies this
      ensures user == Refresh(authToken, legacyToken, stored, old(user), dec)
    {
      user := Refresh(authToken, legacyToken, stored, user, dec);
    }
  }
}
