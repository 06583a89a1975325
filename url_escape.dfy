/**
 * `ExchangeConnection.escape`: the percent-encoder applied to a message URL
 * before it is fetched with GET. It works on the UTF-16 code units of the URL.
 */
module UrlEscape {
  import opened JavaLang

  const PERCENT: CharCode := 0x25

  /**
   * `ALLOWED_CHARS`: the path characters of section 3.3 of RFC 2396 (unreserved,
   * `: @ & = + $ ,`, `;` and `/`) plus `%`. The upper-case range starts at 64,
   * so `@` is also set there.
   */
  predicate Allowed(v: int)
  {
    || InRanges(v)
    || v == '-' as int || v == '_' as int || v == '.' as int || v == '!' as int
    || v == '~' as int || v == '*' as int || v == '\'' as int || v == '(' as int
    || v == ')' as int || v == '%' as int || v == ':' as int || v == '@' as int
    || v == '&' as int || v == '=' as int || v == '+' as int || v == '$' as int
    || v == ',' as int || v == ';' as int || v == '/' as int
  }

  predicate AllAllowed(s: seq<CharCode>)
  {
    forall k :: 0 <= k < |s| ==> Allowed(s[k])
  }

  /** The three ranges the static initialiser fills with loops. */
  predicate InRanges(v: int)
  {
    97 <= v < 123 || 64 <= v < 91 || 48 <= v < 58
  }

  /** `ALLOWED_CHARS[c] = true` for one character: the other entries are kept. */
  method Allow(table: array<bool>, c: char)
    requires c as int < table.Length
    modifies table
    ensures forall v :: 0 <= v < table.Length ==> table[v] == (old(table[v]) || v == c as int)
  {
    table[c as int] := true;
  }

  /**
   * The static initialiser of `ALLOWED_CHARS`: a 128-entry table, false by
   * default, with the ranges and the listed punctuation set.
   */
  method InitAllowedChars() returns (table: array<bool>)
    ensures fresh(table) && IsAllowedTable(table)
  {
    table := new bool[128](_ => false);
    for i := 97 to 123
      invariant forall v :: 0 <= v < 128 ==> table[v] == (97 <= v < i)
    {
      table[i] := true;
    }
    for i := 64 to 91
      invariant forall v :: 0 <= v < 128 ==> table[v] == (97 <= v < 123 || 64 <= v < i)
    {
      table[i] := true;
    }
    for i := 48 to 58
      invariant forall v :: 0 <= v < 128 ==> table[v] == (97 <= v < 123 || 64 <= v < 91 || 48 <= v < i)
    {
      table[i] := true;
    }
    assert forall v :: 0 <= v < 128 ==> table[v] == InRanges(v);
    Allow(table, '-');
    Allow(table, '_');
    Allow(table, '.');
    Allow(table, '!');
    Allow(table, '~');
    Allow(table, '*');
    Allow(table, '\'');
    Allow(table, '(');
    Allow(table, ')');
    Allow(table, '%');
    Allow(table, ':');
    Allow(table, '@');
    Allow(table, '&');
    Allow(table, '=');
    Allow(table, '+');
    Allow(table, '$');
    Allow(table, ',');
    Allow(table, ';');
    Allow(table, '/');
  }

  /** `HEXABET[d]`: the upper-case hex digit "0123456789ABCDEF"[d]. */
  function Hex(d: int): CharCode
    requires 0 <= d < 16
  {
    if d < 10 then 0x30 + d else 0x37 + d
  }

  /** The numeric value of an upper-case hexadecimal digit. */
  function HexValue(u: CharCode): int
  {
    if u < 0x41 then u - 0x30 else u - 0x41 + 10
  }

  /** `%` followed by the two hex digits of a byte. */
  function HexByte(b: int): seq<CharCode>
    requires 0 <= b < 256
  {
    [PERCENT, Hex(b / 16), Hex(b % 16)]
  }

  /**
   * What one code unit becomes: itself when allowed; otherwise `%LL` for a
   * value below 0x100 and `%HH%LL` (high byte first) above it.
   */
  function EscapeUnit(u: CharCode): (r: seq<CharCode>)
    ensures |r| == 1 || |r| == 3 || |r| == 6
  {
    if Allowed(u) then [u]
    else if u / 256 == 0 then HexByte(u % 256)
    else HexByte(u / 256) + HexByte(u % 256)
  }

  /** The escaped URL: every code unit rewritten independently, in order. */
  function Escape(s: seq<CharCode>): seq<CharCode>
  {
    if s == [] then [] else EscapeUnit(s[0]) + Escape(s[1..])
  }

  /** `StringBuilder.insert(i, u)`. */
  function Insert(s: seq<CharCode>, i: nat, u: CharCode): seq<CharCode>
    requires i <= |s|
  {
    s[..i] + [u] + s[i..]
  }

  lemma PrefixSplit(pre: seq<CharCode>, rest: seq<CharCode>)
    ensures (pre + rest)[..|pre|] == pre && (pre + rest)[|pre|..] == rest
  {
  }

  lemma SplitAt(s: seq<CharCode>, i: nat)
    requires i < |s|
    ensures s == s[..i] + [s[i]] + s[i + 1..]
  {
  }

  lemma AppendAssoc(a: seq<CharCode>, b: seq<CharCode>, c: seq<CharCode>, d: seq<CharCode>)
    ensures a + b + (c + d) == a + (b + c) + d
  {
  }

  lemma InsertAfterPrefix(pre: seq<CharCode>, rest: seq<CharCode>, u: CharCode)
    ensures Insert(pre + rest, |pre|, u) == pre + [u] + rest
  {
    assert (pre + rest)[..|pre|] == pre;
    assert (pre + rest)[|pre|..] == rest;
  }

  lemma EscapeUnitCases(u: CharCode)
    ensures Allowed(u) ==> EscapeUnit(u) == [u]
    ensures !Allowed(u) && u / 256 == 0 ==> EscapeUnit(u) == HexByte(u % 256)
    ensures !Allowed(u) && u / 256 != 0 ==> EscapeUnit(u) == HexByte(u / 256) + HexByte(u % 256)
  {
  }

  /** The nibbles `escape` extracts by masking and shifting are those of the low byte. */
  lemma ByteNibbles(value: int)
    requires 0 <= value
    ensures value % 16 == (value % 256) % 16
    ensures (value / 16) % 16 == (value % 256) / 16
    ensures value / 16 / 16 == value / 256
  {
    var q, r := value / 256, value % 256;
    assert value == 256 * q + r;
    assert value / 16 == 16 * q + r / 16;
  }

  /**
   * The three insertions `escape` makes for one byte of `value`: its low
   * nibble, its high nibble, then `%`, each at `i`; `value` is shifted right
   * by four bits after each nibble.
   */
  method InsertHexByte(s: seq<CharCode>, i: nat, value: int) returns (t: seq<CharCode>, shifted: int)
    requires i <= |s| && 0 <= value
    ensures t == s[..i] + HexByte(value % 256) + s[i..]
    ensures shifted == value / 256
  {
    ghost var pre, suffix := s[..i], s[i..];
    assert s == pre + suffix;
    var v := value;
    InsertAfterPrefix(pre, suffix, Hex(v % 16));
    t := Insert(s, i, Hex(v % 16));
    suffix := [Hex(value % 16)] + suffix;
    assert t == pre + suffix;
    v := v / 16;
    InsertAfterPrefix(pre, suffix, Hex(v % 16));
    t := Insert(t, i, Hex(v % 16));
    suffix := [Hex((value / 16) % 16)] + suffix;
    assert t == pre + suffix;
    v := v / 16;
    InsertAfterPrefix(pre, suffix, PERCENT);
    t := Insert(t, i, PERCENT);
    suffix := [PERCENT] + suffix;
    assert t == pre + suffix;
    ByteNibbles(value);
    assert suffix == HexByte(value % 256) + s[i..];
    assert v == value / 256;
    shifted := v;
  }

  /** `table` is `ALLOWED_CHARS` as the static initialiser leaves it. */
  ghost predicate IsAllowedTable(table: array<bool>)
    reads table
  {
    table.Length == 128 && forall v :: 0 <= v < 128 ==> table[v] == Allowed(v)
  }

  /** The test `value > 127 || !ALLOWED_CHARS[value]` of `escape`. */
  method Disallowed(table: array<bool>, value: CharCode) returns (b: bool)
    requires IsAllowedTable(table)
    ensures b == !Allowed(value)
  {
    b := value > 127 || !table[value];
  }

  /**
   * One step of `escape`: the unit at `i` is deleted and, when it is not
   * allowed, its hex groups are inserted at `i` as the builder does it.
   */
  method EscapeAt(table: array<bool>, collector: seq<CharCode>, i: nat) returns (r: seq<CharCode>)
    requires IsAllowedTable(table) && i < |collector|
    ensures r == collector[..i] + EscapeUnit(collector[i]) + collector[i + 1..]
  {
    var value: int := collector[i];
    r := collector;
    ghost var pre, suffix := collector[..i], collector[i + 1..];
    SplitAt(collector, i);
    EscapeUnitCases(collector[i]);
    var disallowed := Disallowed(table, value);
    if disallowed {
      r := r[..i] + r[i + 1..];
      PrefixSplit(pre, suffix);
      r, value := InsertHexByte(r, i, value);
      if value > 0 {
        PrefixSplit(pre, HexByte(collector[i] % 256) + suffix);
        r, value := InsertHexByte(r, i, value);
        AppendAssoc(pre, HexByte(collector[i] / 256), HexByte(collector[i] % 256), suffix);
      }
    }
  }

  /** The builder state at position `i`: the unescaped prefix, unit `i`, the escaped rest. */
  lemma CollectorAt(url: seq<CharCode>, i: nat, rest: seq<CharCode>, collector: seq<CharCode>)
    requires i < |url| && collector == url[..i + 1] + rest
    ensures collector[..i] == url[..i] && collector[i] == url[i] && collector[i + 1..] == rest
  {
    assert url[..i + 1] == url[..i] + [url[i]];
  }

  /** Escaping a suffix that starts at `i` escapes unit `i`, then the rest. */
  lemma EscapeFrom(url: seq<CharCode>, i: nat)
    requires i < |url|
    ensures Escape(url[i..]) == EscapeUnit(url[i]) + Escape(url[i + 1..])
  {
    assert url[i..][1..] == url[i + 1..];
  }

  /**
   * `escape(url)`: walks the builder from the last unit to the first,
   * replacing each disallowed unit in place by its hex groups.
   */
  method EscapeUrl(table: array<bool>, url: seq<CharCode>) returns (escaped: seq<CharCode>)
    requires IsAllowedTable(table)
    ensures escaped == Escape(url)
  {
    var collector := url;
    var i := |url| - 1;
    while i >= 0
      invariant -1 <= i < |url|
      invariant collector == url[..i + 1] + Escape(url[i + 1..])
    {
      ghost var tail := Escape(url[i + 1..]);
      CollectorAt(url, i, tail, collector);
      collector := EscapeAt(table, collector, i);
      EscapeFrom(url, i);
      i := i - 1;
    }
    escaped := collector;
  }

  /** Escaping never shortens a URL, and at most multiplies its length by six. */
  lemma {:induction false} EscapeLength(s: seq<CharCode>)
    ensures |s| <= |Escape(s)| <= 6 * |s|
  {
    if s != [] {
      EscapeLength(s[1..]);
    }
  }

  /** Escaping distributes over concatenation: units are rewritten independently. */
  lemma {:induction false} EscapeAppend(a: seq<CharCode>, b: seq<CharCode>)
    ensures Escape(a + b) == Escape(a) + Escape(b)
  {
    if a == [] {
      assert a + b == b;
    } else {
      calc {
        Escape(a + b);
        { assert (a + b)[0] == a[0]; assert (a + b)[1..] == a[1..] + b; }
        EscapeUnit(a[0]) + Escape(a[1..] + b);
        { EscapeAppend(a[1..], b); }
        EscapeUnit(a[0]) + (Escape(a[1..]) + Escape(b));
      }
    }
  }

  /** A `%HH` group consists of allowed units. */
  lemma HexByteAllowed(b: int)
    requires 0 <= b < 256
    ensures AllAllowed(HexByte(b))
  {
    var r := HexByte(b);
    assert Allowed(r[0]) && Allowed(r[1]) && Allowed(r[2]);
  }

  lemma AllowedAppend(a: seq<CharCode>, b: seq<CharCode>)
    requires AllAllowed(a) && AllAllowed(b)
    ensures AllAllowed(a + b)
  {
    forall k | 0 <= k < |a + b|
      ensures Allowed((a + b)[k])
    {
      if k < |a| {
        assert (a + b)[k] == a[k];
      } else {
        assert (a + b)[k] == b[k - |a|];
      }
    }
  }

  lemma EscapeUnitAllowed(u: CharCode)
    ensures AllAllowed(EscapeUnit(u))
  {
    if !Allowed(u) {
      HexByteAllowed(u % 256);
      if u / 256 != 0 {
        HexByteAllowed(u / 256);
        AllowedAppend(HexByte(u / 256), HexByte(u % 256));
      }
    }
  }

  /** Every unit of an escaped URL is allowed, since `%`, 0-9 and A-F are. */
  lemma {:induction false} EscapeOutputAllowed(s: seq<CharCode>)
    ensures AllAllowed(Escape(s))
  {
    if s != [] {
      EscapeOutputAllowed(s[1..]);
      EscapeUnitAllowed(s[0]);
      AllowedAppend(EscapeUnit(s[0]), Escape(s[1..]));
    }
  }

  /** An all-allowed URL is left unchanged. */
  lemma {:induction false} EscapeIdentity(s: seq<CharCode>)
    requires AllAllowed(s)
    ensures Escape(s) == s
  {
    if s != [] {
      EscapeIdentity(s[1..]);
      assert s == [s[0]] + s[1..];
    }
  }

  /** Escaping an escaped URL changes nothing. */
  lemma EscapeIdempotent(s: seq<CharCode>)
    ensures Escape(Escape(s)) == Escape(s)
  {
    EscapeOutputAllowed(s);
    EscapeIdentity(Escape(s));
  }

  lemma HexDecodes(d: int)
    requires 0 <= d < 16
    ensures HexValue(Hex(d)) == d
  {
  }

  /** A disallowed unit's hex groups decode back to the unit, high byte first. */
  lemma EscapeUnitDecodes(u: CharCode)
    requires !Allowed(u)
    ensures var r := EscapeUnit(u);
      && r[0] == PERCENT
      && (u < 256 ==> |r| == 3 && 16 * HexValue(r[1]) + HexValue(r[2]) == u)
      && (u >= 256 ==>
            && |r| == 6 && r[3] == PERCENT
            && 256 * (16 * HexValue(r[1]) + HexValue(r[2])) + 16 * HexValue(r[4]) + HexValue(r[5]) == u)
  {
    var high, low := u / 256, u % 256;
    assert u == 256 * high + low;
    assert low == 16 * (low / 16) + low % 16;
    HexDecodes(low / 16);
    HexDecodes(low % 16);
    if high > 0 {
      assert high == 16 * (high / 16) + high % 16;
      HexDecodes(high / 16);
      HexDecodes(high % 16);
      assert EscapeUnit(u) == HexByte(high) + HexByte(low);
    }
  }

  /** Only the listed ASCII characters pass through unchanged. */
  lemma EscapeUnitFixed(u: CharCode)
    ensures EscapeUnit(u) == [u] <==> Allowed(u)
  {
  }

  /** The escape of a one-byte-wide unit is indistinguishable from two narrow units. */
  lemma EscapeWideUnitAmbiguous()
    ensures Escape([0x0120]) == Escape([0x01, 0x20])
  {
    assert [0x01, 0x20][1..] == [0x20];
  }

  /** `escape("a b/")` is `"a%20b/"`: a space is escaped, a slash is kept. */
  lemma EscapeSpaceExample()
    ensures Escape([0x61, 0x20, 0x62, 0x2F]) == [0x61, 0x25, 0x32, 0x30, 0x62, 0x2F]
  {
    EscapeUnitCases(0x20);
    assert Escape([0x20]) == [0x25, 0x32, 0x30];
    EscapeAppend([0x61], [0x20]);
    EscapeAppend([0x61, 0x20], [0x62, 0x2F]);
  }

  /** `escape("c#1")` is `"c%231"`: a hash is escaped. */
  lemma EscapeHashExample()
    ensures Escape([0x63, 0x23, 0x31]) == [0x63, 0x25, 0x32, 0x33, 0x31]
  {
    EscapeUnitCases(0x23);
    assert Escape([0x23, 0x31]) == [0x25, 0x32, 0x33, 0x31];
  }

  /**
   * `escape("a b/c#1")` is `"a%20b/c%231"`; the strings are written as their
   * code units, split after "a b/" and after "a%20b/".
   */
  lemma EscapeExample()
    ensures Escape([0x61, 0x20, 0x62, 0x2F] + [0x63, 0x23, 0x31])
         == [0x61, 0x25, 0x32, 0x30, 0x62, 0x2F] + [0x63, 0x25, 0x32, 0x33, 0x31]
  {
    EscapeSpaceExample();
    EscapeHashExample();
    EscapeAppend([0x61, 0x20, 0x62, 0x2F], [0x63, 0x23, 0x31]);
  }
}
