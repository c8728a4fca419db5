/** Text as the program holds it: UTF-8 bytes (section 3 of RFC 3629), where a byte
    offset may or may not fall between two characters. */

module Utf8 {
  type byte = x: int | 0 <= x < 256

  function Encoded(c: char): (b: seq<byte>)
    ensures 1 <= |b| <= 4
    ensures Lead(b[0]) && |b| == Width(b[0])
    ensures forall i :: 1 <= i < |b| ==> !Lead(b[i])
  {
    var n := c as int;
    if n < 0x80 then [n]
    else if n < 0x800 then [0xC0 + n / 0x40, 0x80 + n % 0x40]
    else if n < 0x1_0000 then [0xE0 + n / 0x1000, 0x80 + n / 0x40 % 0x40, 0x80 + n % 0x40]
    else [0xF0 + n / 0x4_0000, 0x80 + n / 0x1000 % 0x40, 0x80 + n / 0x40 % 0x40, 0x80 + n % 0x40]
  }

  /** A byte that begins a character; the others continue one. */
  predicate Lead(b: byte) {
    b < 0x80 || b >= 0xC0
  }

  /** How many bytes the character a byte begins has. */
  function Width(b: byte): nat {
    if b < 0x80 then 1 else if b < 0xE0 then 2 else if b < 0xF0 then 3 else 4
  }

  /** The scalar value of a whole encoded character. */
  function Scalar(b: seq<byte>): int
    requires 1 <= |b| <= 4
  {
    if |b| == 1 then b[0]
    else if |b| == 2 then Tail(b[0] as int - 0xC0, b[1])
    else if |b| == 3 then Tail(Tail(b[0] as int - 0xE0, b[1]), b[2])
    else Tail(Tail(Tail(b[0] as int - 0xF0, b[1]), b[2]), b[3])
  }

  /** Six more bits from a byte that continues a character. */
  function Tail(high: int, b: byte): int {
    high * 0x40 + (b as int - 0x80)
  }

  lemma ScalarIsBack(c: char)
    ensures Scalar(Encoded(c)) == c as int
  {
    var n := c as int;
    assert n / 0x40 / 0x40 == n / 0x1000 && n / 0x1000 / 0x40 == n / 0x4_0000;
    SixBits(n);
    SixBits(n / 0x40);
    SixBits(n / 0x1000);
  }

  lemma SixBits(n: nat)
    ensures Tail(n / 0x40, 0x80 + n % 0x40) == n
  {
  }

  function Encode(s: string): seq<byte> {
    if s == "" then [] else Encoded(s[0]) + Encode(s[1..])
  }

  lemma {:induction false} EncodeConcat(a: string, b: string)
    ensures Encode(a + b) == Encode(a) + Encode(b)
    decreases |a|
  {
    if a == "" {
      assert a + b == b;
    } else {
      assert (a + b)[1..] == a[1..] + b;
      EncodeConcat(a[1..], b);
    }
  }

  lemma EncodeOne(c: char)
    ensures Encode([c]) == Encoded(c)
  {
  }

  lemma EncodeSnoc(s: string, c: char)
    ensures Encode(s + [c]) == Encode(s) + Encoded(c)
  {
    EncodeConcat(s, [c]);
    EncodeOne(c);
  }

  lemma NoBytesNoText(s: string)
    ensures Encode(s) == [] <==> s == ""
  {
  }

  /** In a text's bytes the last character begins at the last byte that begins one. */
  lemma LastBegins(s: string)
    requires s != ""
    ensures var bytes, at := Encode(s), |Encode(s[..|s| - 1])|;
            && at < |bytes| && Lead(bytes[at]) && at + Width(bytes[at]) == |bytes|
            && forall i :: at < i < |bytes| ==> !Lead(bytes[i])
  {
    var n := |s| - 1;
    assert s == s[..n] + [s[n]];
    EncodeSnoc(s[..n], s[n]);
    var at := |Encode(s[..n])|;
    forall i | at <= i < |Encode(s)| ensures Encode(s)[i] == Encoded(s[n])[i - at] {
    }
  }

  lemma Excised<T>(head: seq<T>, middle: seq<T>, tail: seq<T>)
    ensures var all := head + middle + tail;
            all[..|head|] == head && all[|head|..|head| + |middle|] == middle && all[|head| + |middle|..] == tail
  {
  }

  /** Encoding loses nothing. */
  lemma {:induction false} EncodeIsInjective(a: string, b: string)
    requires Encode(a) == Encode(b)
    ensures a == b
    decreases |a|
  {
    if a == "" || b == "" {
      assert a != "" ==> |Encode(a)| > 0;
      assert b != "" ==> |Encode(b)| > 0;
    } else {
      assert Encode(a)[0] == Encoded(a[0])[0] && Encode(b)[0] == Encoded(b[0])[0];
      var n := |Encoded(a[0])|;
      assert Encoded(a[0]) == Encode(a)[..n] == Encode(b)[..n] == Encoded(b[0]);
      ScalarIsBack(a[0]);
      ScalarIsBack(b[0]);
      assert Encode(a[1..]) == Encode(a)[n..] == Encode(b)[n..] == Encode(b[1..]);
      EncodeIsInjective(a[1..], b[1..]);
      assert a == [a[0]] + a[1..] && b == [b[0]] + b[1..];
    }
  }

  /** Where the library says a character begins, or the text ends. */
  predicate IsBoundary(text: seq<byte>, at: nat) {
    at == 0 || at == |text| || (at < |text| && Lead(text[at]))
  }

  /** How many characters begin in a run of bytes. */
  function Leads(b: seq<byte>): nat {
    if b == [] then 0 else (if Lead(b[0]) then 1 else 0) + Leads(b[1..])
  }

  lemma {:induction false} LeadsConcat(a: seq<byte>, b: seq<byte>)
    ensures Leads(a + b) == Leads(a) + Leads(b)
    decreases |a|
  {
    if a == [] {
      assert a + b == b;
    } else {
      assert (a + b)[1..] == a[1..] + b;
      LeadsConcat(a[1..], b);
    }
  }

  lemma {:induction false} NoLeads(b: seq<byte>)
    requires forall i :: 0 <= i < |b| ==> !Lead(b[i])
    ensures Leads(b) == 0
  {
    if b != [] {
      NoLeads(b[1..]);
    }
  }

  lemma {:induction false} LeadsOfText(s: string)
    ensures Leads(Encode(s)) == |s|
  {
    if s != "" {
      var first := Encoded(s[0]);
      LeadsConcat(first, Encode(s[1..]));
      NoLeads(first[1..]);
      LeadsOfText(s[1..]);
    }
  }

  /** A byte offset is a boundary exactly when it is the length of some first
      characters of the text. */
  lemma {:induction false} BoundariesAreCharacters(s: string, at: nat)
    requires at <= |Encode(s)|
    ensures IsBoundary(Encode(s), at) <==> exists k :: 0 <= k <= |s| && at == |Encode(s[..k])|
  {
    if at == 0 {
      assert s[..0] == "";
    } else if s != "" {
      var n := |Encoded(s[0])|;
      var rest := Encode(s[1..]);
      if at < n {
        assert !Lead(Encode(s)[at]);
        forall k | 0 <= k <= |s| ensures at != |Encode(s[..k])| {
          if k > 0 {
            assert s[..k][0] == s[0];
          }
        }
      } else {
        BoundariesAreCharacters(s[1..], at - n);
        assert at < |Encode(s)| ==> Encode(s)[at] == rest[at - n];
        if k :| 0 <= k <= |s[1..]| && at - n == |Encode(s[1..][..k])| {
          assert s[..k + 1][1..] == s[1..][..k];
          assert at == |Encode(s[..k + 1])|;
        }
        if k :| 0 <= k <= |s| && at == |Encode(s[..k])| {
          assert k > 0;
          assert s[..k][1..] == s[1..][..k - 1];
          assert at - n == |Encode(s[1..][..k - 1])|;
        }
        assert at > n ==> (IsBoundary(Encode(s), at) <==> IsBoundary(rest, at - n));
        if at == n {
          assert s[1..][..0] == "";
        }
      }
    }
  }

  /** The characters before a boundary: as many of them as begin before it. */
  lemma BoundarySplits(s: string, at: nat)
    requires at <= |Encode(s)| && IsBoundary(Encode(s), at)
    ensures var k := Leads(Encode(s)[..at]);
            k <= |s| && Encode(s[..k]) == Encode(s)[..at] && Encode(s[k..]) == Encode(s)[at..]
  {
    BoundariesAreCharacters(s, at);
    var k :| 0 <= k <= |s| && at == |Encode(s[..k])|;
    assert s == s[..k] + s[k..];
    EncodeConcat(s[..k], s[k..]);
    LeadsOfText(s[..k]);
  }

  /** Between two boundaries lie whole characters. */
  lemma SliceIsText(s: string, from: nat, upTo: nat)
    requires from <= upTo <= |Encode(s)|
    requires IsBoundary(Encode(s), from) && IsBoundary(Encode(s), upTo)
    ensures var a, b := Leads(Encode(s)[..from]), Leads(Encode(s)[..upTo]);
            && a <= b <= |s| && Encode(s)[from..upTo] == Encode(s[a..b])
            && Leads(Encode(s)[from..upTo]) == b - a
  {
    var bytes := Encode(s);
    BoundarySplits(s, from);
    BoundarySplits(s, upTo);
    SliceLeads(bytes, from, upTo);
    Between(s, bytes, from, upTo, Leads(bytes[..from]), Leads(bytes[..upTo]));
  }

  lemma SliceLeads(bytes: seq<byte>, from: nat, upTo: nat)
    requires from <= upTo <= |bytes|
    ensures Leads(bytes[..upTo]) == Leads(bytes[..from]) + Leads(bytes[from..upTo])
  {
    assert bytes[..upTo] == bytes[..from] + bytes[from..upTo];
    LeadsConcat(bytes[..from], bytes[from..upTo]);
  }

  lemma Between(s: string, bytes: seq<byte>, from: nat, upTo: nat, a: nat, b: nat)
    requires from <= upTo <= |bytes| && a <= b <= |s|
    requires Encode(s[..a]) == bytes[..from] && Encode(s[..b]) == bytes[..upTo]
    ensures Encode(s[a..b]) == bytes[from..upTo]
  {
    assert s[..b] == s[..a] + s[a..b];
    EncodeConcat(s[..a], s[a..b]);
    assert bytes[..upTo][from..] == bytes[from..upTo];
    assert (bytes[..from] + Encode(s[a..b]))[from..] == Encode(s[a..b]);
  }

  /** The nearest boundary at or before an offset, within the text. */
  function Floor(text: seq<byte>, want: nat): (at: nat)
    ensures at <= |text| && at <= want && IsBoundary(text, at)
    ensures forall b :: at < b <= want && b <= |text| ==> !IsBoundary(text, b)
    decreases want
  {
    if want > |text| then Floor(text, |text|)
    else if IsBoundary(text, want) then want
    else Floor(text, want - 1)
  }

  lemma FloorRises(text: seq<byte>, a: nat, b: nat)
    requires a <= b
    ensures Floor(text, a) <= Floor(text, b)
  {
  }

  lemma FloorOfBoundary(text: seq<byte>, at: nat)
    requires at <= |text| && IsBoundary(text, at)
    ensures Floor(text, at) == at
  {
  }
}
