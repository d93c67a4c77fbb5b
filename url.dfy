/** `build_url` in bot.py: the score page's address for a plate, built with
    `urlencode`, which form-encodes each key and value with `quote_plus`. */
module Url {
  import opened Vrm

  const Base: string := "https://vehiclescore.co.uk/score"
  const RegistrationKey: string := "registration"

  /** The characters `quote` never escapes: ASCII letters, digits and `_.-~`
      (the unreserved set of section 2.3 of RFC 3986). */
  predicate AlwaysSafe(c: char) {
    'A' <= c <= 'Z' || 'a' <= c <= 'z' || '0' <= c <= '9' ||
    c == '_' || c == '.' || c == '-' || c == '~'
  }

  /** A character that can appear in form-encoded output. */
  predicate FormChar(c: char) {
    AlwaysSafe(c) || c == '+' || c == '%'
  }

  /** The UTF-8 encoding of one Unicode scalar value, as byte values: a lead
      byte that announces the length, then continuation bytes `10xxxxxx`. */
  function Utf8(c: char): (bytes: seq<int>)
    ensures 1 <= |bytes| <= 4
    ensures forall i :: 0 <= i < |bytes| ==> 0 <= bytes[i] < 256
    ensures (|bytes| == 1) == (c as int < 0x80)
    ensures c as int < 0x80 ==> bytes == [c as int]
    ensures |bytes| > 1 ==>
              0xC0 <= bytes[0] && forall i :: 1 <= i < |bytes| ==> 0x80 <= bytes[i] < 0xC0
  {
    var n := c as int;
    if n < 0x80 then [n]
    else if n < 0x800 then [0xC0 + n / 0x40, 0x80 + n % 0x40]
    else if n < 0x1_0000 then [0xE0 + n / 0x1000, 0x80 + (n / 0x40) % 0x40, 0x80 + n % 0x40]
    else [0xF0 + n / 0x4_0000, 0x80 + (n / 0x1000) % 0x40, 0x80 + (n / 0x40) % 0x40, 0x80 + n % 0x40]
  }

  /** The code point a well-formed UTF-8 sequence of one to four bytes
      stands for. */
  function Utf8Value(bytes: seq<int>): int
    requires 1 <= |bytes| <= 4
  {
    if |bytes| == 1 then bytes[0]
    else if |bytes| == 2 then (bytes[0] - 0xC0) * 0x40 + (bytes[1] - 0x80)
    else if |bytes| == 3 then
      ((bytes[0] - 0xE0) * 0x40 + (bytes[1] - 0x80)) * 0x40 + (bytes[2] - 0x80)
    else
      (((bytes[0] - 0xF0) * 0x40 + (bytes[1] - 0x80)) * 0x40 + (bytes[2] - 0x80)) * 0x40 + (bytes[3] - 0x80)
  }

  /** Decoding the bytes `quote` escapes gives back the character. */
  lemma Utf8RoundTrip(c: char)
    ensures Utf8Value(Utf8(c)) == c as int
  {
    var n := c as int;
    assert n / 0x40 / 0x40 == n / 0x1000;
    assert n / 0x1000 / 0x40 == n / 0x4_0000;
  }

  /** The value of an upper-case hexadecimal digit. */
  function HexValue(c: char): int {
    if '0' <= c <= '9' then c as int - '0' as int
    else if 'A' <= c <= 'F' then c as int - 'A' as int + 10
    else -1
  }

  /** The upper-case hexadecimal digit for `n`. */
  function HexDigit(n: int): (c: char)
    requires 0 <= n < 16
    ensures AlwaysSafe(c) && HexValue(c) == n
  {
    if n < 10 then ('0' as int + n) as char else ('A' as int + n - 10) as char
  }

  /** `%XX` with two upper-case hexadecimal digits, as `quote` writes a byte. */
  function PercentByte(b: int): (r: string)
    requires 0 <= b < 256
    ensures |r| == 3 && r[0] == '%'
    ensures AlwaysSafe(r[1]) && AlwaysSafe(r[2])
    ensures HexValue(r[1]) * 16 + HexValue(r[2]) == b
  {
    ['%', HexDigit(b / 16), HexDigit(b % 16)]
  }

  /** The escapes of a sequence of bytes, one after the other. */
  function PercentBytes(bytes: seq<int>): (r: string)
    requires forall i :: 0 <= i < |bytes| ==> 0 <= bytes[i] < 256
    ensures |r| == 3 * |bytes|
    ensures forall i :: 0 <= i < |r| ==> FormChar(r[i])
    ensures bytes != [] ==> r[0] == '%'
  {
    if bytes == [] then [] else PercentByte(bytes[0]) + PercentBytes(bytes[1..])
  }

  /** `quote_plus` on one character: safe characters stay, a space becomes
      `+`, anything else becomes the `%XX` escapes of its UTF-8 bytes. */
  function QuoteChar(c: char): (r: string)
    ensures forall i :: 0 <= i < |r| ==> FormChar(r[i])
    ensures AlwaysSafe(c) <==> r == [c]
    ensures c == ' ' ==> r == "+"
    ensures !AlwaysSafe(c) && c != ' ' ==> |r| >= 3 && r[0] == '%'
  {
    if AlwaysSafe(c) then [c]
    else if c == ' ' then "+"
    else PercentBytes(Utf8(c))
  }

  /** `quote_plus(s)` with no extra safe characters. */
  function QuotePlus(s: string): (r: string)
    ensures |r| >= |s|
    ensures forall i :: 0 <= i < |r| ==> FormChar(r[i])
  {
    if s == [] then [] else QuoteChar(s[0]) + QuotePlus(s[1..])
  }

  /** `quote_plus` leaves a string unchanged exactly when every character is
      always safe. */
  lemma {:induction false} QuotePlusFixed(s: string)
    ensures QuotePlus(s) == s <==> forall i :: 0 <= i < |s| ==> AlwaysSafe(s[i])
  {
    if s != [] {
      QuotePlusFixed(s[1..]);
      var q := QuoteChar(s[0]);
      var t := QuotePlus(s[1..]);
      assert QuotePlus(s) == q + t;
      if AlwaysSafe(s[0]) {
        assert forall i :: 1 <= i < |s| ==> s[i] == s[1..][i - 1];
        if t == s[1..] {
          assert QuotePlus(s) == s;
        } else {
          assert (q + t)[1..] == t;
        }
      } else if s[0] == ' ' {
        assert QuotePlus(s)[0] == '+';
      } else {
        assert |QuotePlus(s)| >= 3 + |s| - 1;
      }
    }
  }

  /** `urlencode` of a list of key/value pairs: each pair `key=value` with
      both sides form-encoded, the pairs joined by `&`. Only the separators
      `=` and `&` are added to the form characters of the encoded sides. */
  function UrlEncode(query: seq<(string, string)>): (r: string)
    ensures query == [] ==> r == []
    ensures forall i :: 0 <= i < |r| ==> FormChar(r[i]) || r[i] == '=' || r[i] == '&'
  {
    if query == [] then []
    else if |query| == 1 then QuotePlus(query[0].0) + "=" + QuotePlus(query[0].1)
    else QuotePlus(query[0].0) + "=" + QuotePlus(query[0].1) + "&" + UrlEncode(query[1..])
  }

  /** Two strings of form characters joined by `=`: the `=` is the only
      separator, and the two sides can be read back from it. */
  lemma JoinPair(k: string, v: string)
    requires forall i :: 0 <= i < |k| ==> FormChar(k[i])
    requires forall i :: 0 <= i < |v| ==> FormChar(v[i])
    ensures var e := k + "=" + v;
            |k| < |e| && e[..|k|] == k && e[|k|] == '=' && e[|k| + 1..] == v
    ensures var e := k + "=" + v;
            forall i :: 0 <= i < |e| && i != |k| ==> e[i] != '=' && e[i] != '&'
  {
    var e := k + "=" + v;
    assert forall i :: 0 <= i < |k| ==> e[i] == k[i];
    assert forall i :: |k| < i < |e| ==> e[i] == v[i - |k| - 1];
    assert e[|k| + 1..] == v;
  }

  /** A single pair encodes with exactly one `=`, right after the encoded
      key, and no `&`: splitting it at its `=` gives back the encoded key and
      the encoded value, so the query holds exactly one parameter. */
  lemma UrlEncodeSinglePair(key: string, value: string)
    ensures var k, e := QuotePlus(key), UrlEncode([(key, value)]);
            |k| < |e| && e[..|k|] == k && e[|k|] == '=' && e[|k| + 1..] == QuotePlus(value)
    ensures var k, e := QuotePlus(key), UrlEncode([(key, value)]);
            forall i :: 0 <= i < |e| && i != |k| ==> e[i] != '=' && e[i] != '&'
  {
    assert UrlEncode([(key, value)]) == QuotePlus(key) + "=" + QuotePlus(value);
    JoinPair(QuotePlus(key), QuotePlus(value));
  }

  /** What every address starts with: the base, `?`, and the encoded key. */
  const QueryPrefix: string := Base + "?" + RegistrationKey + "="

  /** `s` is all unreserved characters, checked one character at a time;
      on a literal this unfolds character by character. */
  predicate SafeRun(s: string)
    decreases |s|
  {
    s == [] || (AlwaysSafe(s[0]) && SafeRun(s[1..]))
  }

  /** A string that passes `SafeRun` is all unreserved characters. */
  lemma {:induction false} SafeRunAllSafe(s: string)
    requires SafeRun(s)
    ensures forall i :: 0 <= i < |s| ==> AlwaysSafe(s[i])
    decreases |s|
  {
    if s != [] {
      SafeRunAllSafe(s[1..]);
      assert forall i :: 1 <= i < |s| ==> s[i] == s[1..][i - 1];
    }
  }

  /** The key `registration` is all letters, so encoding leaves it as it is. */
  lemma KeyUnchanged()
    ensures QuotePlus(RegistrationKey) == RegistrationKey
  {
    var k := RegistrationKey;
    assert SafeRun(k);
    SafeRunAllSafe(k);
    QuotePlusFixed(k);
  }

  /** With a key that encoding leaves as it is, the one-pair query after
      `b?` is the key, `=`, and the encoded value. */
  lemma EncodeUnchangedKey(b: string, key: string, value: string)
    requires QuotePlus(key) == key
    ensures b + "?" + UrlEncode([(key, value)]) == b + "?" + key + "=" + QuotePlus(value)
  {
    UrlEncodeSinglePair(key, value);
    var e := UrlEncode([(key, value)]);
    assert e == e[..|key|] + [e[|key|]] + e[|key| + 1..];
  }

  /** A string of form characters appended to `p` keeps `p` as its prefix
      and adds only form characters. */
  lemma AppendFormChars(p: string, q: string)
    requires forall i :: 0 <= i < |q| ==> FormChar(q[i])
    ensures (p + q)[..|p|] == p
    ensures forall i :: |p| <= i < |p + q| ==> FormChar((p + q)[i])
  {
    assert forall i :: |p| <= i < |p + q| ==> (p + q)[i] == q[i - |p|];
  }

  /** `build_url(vrm)`: the base, `?`, then the one-parameter query. The key
      needs no escaping, so the address is the fixed prefix followed by the
      encoded plate; after the prefix there are only form characters, so a
      plate can never add a second parameter or a fragment. */
  function BuildUrl(vrm: string): (url: string)
    ensures url == QueryPrefix + QuotePlus(vrm)
    ensures |url| >= |QueryPrefix| + |vrm|
    ensures url[..|QueryPrefix|] == QueryPrefix
    ensures forall i :: |QueryPrefix| <= i < |url| ==> FormChar(url[i])
  {
    var q := QuotePlus(vrm);
    KeyUnchanged();
    EncodeUnchangedKey(Base, RegistrationKey, vrm);
    AppendFormChars(QueryPrefix, q);
    Base + "?" + UrlEncode([(RegistrationKey, vrm)])
  }

  /** Every character of a valid plate is unreserved, so encoding leaves it
      as it is and the address is the plain concatenation
      `Base + "?registration=" + vrm`. */
  lemma BuildUrlOfValid(vrm: string)
    requires ValidVrm(vrm)
    ensures BuildUrl(vrm) == QueryPrefix + vrm
  {
    QuotePlusFixed(vrm);
  }

  /** Distinct valid plates give distinct addresses. */
  lemma BuildUrlInjective(a: string, b: string)
    requires ValidVrm(a) && ValidVrm(b)
    requires BuildUrl(a) == BuildUrl(b)
    ensures a == b
  {
    BuildUrlOfValid(a);
    BuildUrlOfValid(b);
    assert a == (QueryPrefix + a)[|QueryPrefix|..];
    assert b == (QueryPrefix + b)[|QueryPrefix|..];
  }

  /** A plate that is not all unreserved characters is changed by encoding,
      so it never appears verbatim after `registration=`. */
  lemma BuildUrlEscapes(vrm: string)
    requires exists i :: 0 <= i < |vrm| && !AlwaysSafe(vrm[i])
    ensures BuildUrl(vrm) != QueryPrefix + vrm
  {
    QuotePlusFixed(vrm);
    assert vrm == (QueryPrefix + vrm)[|QueryPrefix|..];
    assert QuotePlus(vrm) == (QueryPrefix + QuotePlus(vrm))[|QueryPrefix|..];
  }
}
