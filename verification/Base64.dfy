/** Base64 (section 4 of RFC 4648), in which the terminal carries what is copied. */

module Base64 {
  import opened Naturals
  import opened Options
  import opened Utf8

  const UPPER: string := "ABCDEFGHIJKLMNOPQRSTUVWXYZ"
  const LOWER: string := "abcdefghijklmnopqrstuvwxyz"
  const DIGITS: string := "0123456789"
  const ABC: string := UPPER + LOWER + DIGITS + "+/"

  /// The reader of the standard

  /** The value a letter of the alphabet stands for. */
  function Value(c: char): (v: Option<nat>)
    ensures v.Some? ==> v.value < 64
  {
    if 'A' <= c <= 'Z' then Some(c as nat - 'A' as nat)
    else if 'a' <= c <= 'z' then Some(26 + (c as nat - 'a' as nat))
    else if '0' <= c <= '9' then Some(52 + (c as nat - '0' as nat))
    else if c == '+' then Some(62)
    else if c == '/' then Some(63)
    else None
  }

  predicate Sixes(values: seq<nat>) {
    forall i :: 0 <= i < |values| ==> values[i] < 64
  }

  /** The bytes that four, three or two groups of six bits hold, where the bits past the
      last byte are zero. */
  function Joined(values: seq<nat>): (bytes: Option<seq<byte>>)
    requires 2 <= |values| <= 4 && Sixes(values)
    ensures bytes.Some? ==> |bytes.value| == |values| - 1
  {
    var first := values[0] * 4 + values[1] / 16;
    if |values| == 2 then
      if values[1] % 16 == 0 then Some([first]) else None
    else
      var second := values[1] % 16 * 16 + values[2] / 4;
      if |values| == 3 then
        if values[2] % 4 == 0 then Some([first, second]) else None
      else Some([first, second, values[2] % 4 * 64 + values[3]])
  }

  /** How many of a group's four letters are not pads. Only the last group has pads, one
      for each byte it is short of three. */
  function Letters(s: string, last: bool): (n: nat)
    requires |s| == 4
    ensures 2 <= n <= 4
  {
    if last && s[2] == '=' && s[3] == '=' then 2 else if last && s[3] == '=' then 3 else 4
  }

  predicate Spells(s: string, n: nat)
    requires n <= |s|
  {
    forall i :: 0 <= i < n ==> Value(s[i]).Some?
  }

  function Values(s: string, n: nat): (values: seq<nat>)
    requires n <= |s| && Spells(s, n)
    ensures |values| == n && Sixes(values)
    ensures forall i :: 0 <= i < n ==> Value(s[i]) == Some(values[i])
  {
    seq(n, i requires 0 <= i < n && Value(s[i]).Some? => Value(s[i]).value)
  }

  /** The bytes a group stands for. */
  function GroupRead(s: string, last: bool): (bytes: Option<seq<byte>>)
    requires |s| == 4
    ensures bytes.Some? ==> |bytes.value| == Letters(s, last) - 1
  {
    var n := Letters(s, last);
    if Spells(s, n) then Joined(Values(s, n)) else None
  }

  /** The bytes a whole text stands for, if it is in canonical form. */
  function Read(s: string): Option<seq<byte>> {
    if s == "" then Some([])
    else if |s| < 4 then None
    else
      match (GroupRead(s[..4], |s| == 4), Read(s[4..]))
      case (Some(group), Some(rest)) => Some(group + rest)
      case _ => None
  }

  lemma UpperRises(i: nat)
    requires i < 26
    ensures UPPER[i] as nat == 'A' as nat + i
  {
  }

  lemma LowerRises(i: nat)
    requires i < 26
    ensures LOWER[i] as nat == 'a' as nat + i
  {
  }

  lemma DigitsRise(i: nat)
    requires i < 10
    ensures DIGITS[i] as nat == '0' as nat + i
  {
  }

  lemma LettersRise(v: nat)
    requires v < 64
    ensures ABC[v] as nat == if v < 26 then 'A' as nat + v
                             else if v < 52 then 'a' as nat + (v - 26)
                             else if v < 62 then '0' as nat + (v - 52)
                             else if v == 62 then '+' as nat else '/' as nat
  {
    if v < 26 {
      UpperRises(v);
    } else if v < 52 {
      LowerRises(v - 26);
    } else if v < 62 {
      DigitsRise(v - 52);
    }
  }

  lemma ValueOfLetter(abc: string, v: nat)
    requires abc == ABC && v < 64
    ensures Value(abc[v]) == Some(v)
  {
    LettersRise(v);
  }

  lemma LetterOfValue(abc: string, c: char)
    requires abc == ABC && Value(c).Some?
    ensures abc[Value(c).value] == c
  {
    LettersRise(Value(c).value);
  }

  /** A table with each value's letter at its place. */
  predicate IsAlphabet(abc: string) {
    && |abc| == 64
    && (forall v: nat | v < 64 :: Value(abc[v]) == Some(v))
    && (forall c: char | Value(c).Some? :: Value(c).value < 64 && abc[Value(c).value] == c)
  }

  lemma TheTableIsTheAlphabet(abc: string)
    requires abc == ABC
    ensures IsAlphabet(abc)
  {
    forall v: nat | v < 64 ensures Value(abc[v]) == Some(v) {
      ValueOfLetter(abc, v);
    }
    forall c: char | Value(c).Some? ensures abc[Value(c).value] == c {
      LetterOfValue(abc, c);
    }
  }

  /// What the program writes

  function Together(a: nat, b: nat, c: nat): nat {
    a * 0x1_0000 + b * 0x100 + c
  }

  /** A group's bytes as one number, missing ones as zero. */
  function Number(group: seq<byte>): nat
    requires 1 <= |group| <= 3
  {
    var block := group + [0, 0, 0];
    Together(block[0], block[1], block[2])
  }

  /** The `i`th six bits of a number of four times six. */
  function Sextet(n: nat, i: nat): (v: nat)
    requires i < 4
    ensures v < 64
    decreases 4 - i
  {
    if i == 3 then n % 64 else Sextet(n / 64, i + 1)
  }

  /** The groups of six bits a group's bytes reach into. */
  function Cut(group: seq<byte>): (values: seq<nat>)
    requires 1 <= |group| <= 3
    ensures |values| == |group| + 1 && Sixes(values)
  {
    seq(|group| + 1, i requires 0 <= i <= |group| => Sextet(Number(group), i))
  }

  function GroupWritten(abc: string, group: seq<byte>): (s: string)
    requires |abc| == 64 && 1 <= |group| <= 3
    ensures |s| == 4
  {
    var values := Cut(group);
    seq(4, i requires 0 <= i < 4 => if i <= |group| then abc[values[i]] else '=')
  }

  function Written(abc: string, bytes: seq<byte>): string
    requires |abc| == 64
  {
    if bytes == [] then ""
    else GroupWritten(abc, bytes[..Smaller(3, |bytes|)]) + Written(abc, bytes[Smaller(3, |bytes|)..])
  }

  lemma Sextets(a: nat, b: nat, c: nat)
    requires a < 0x100 && b < 0x100 && c < 0x100
    ensures var n := Together(a, b, c);
            && Sextet(n, 0) == a / 4
            && Sextet(n, 1) == a % 4 * 16 + b / 16
            && Sextet(n, 2) == b % 16 * 4 + c / 64
            && Sextet(n, 3) == c % 64
  {
    var n := Together(a, b, c);
    SixOff(n, a * 0x400 + b * 4 + c / 64, c % 64);
    SixOff(n / 64, a * 16 + b / 16, b % 16 * 4 + c / 64);
    SixOff(n / 64 / 64, a / 4, a % 4 * 16 + b / 16);
    assert Sextet(n, 2) == Sextet(n / 64, 3);
    assert Sextet(n, 1) == Sextet(n / 64, 2) == Sextet(n / 64 / 64, 3);
    assert Sextet(n, 0) == Sextet(n / 64, 1) == Sextet(n / 64 / 64, 2) == Sextet(n / 64 / 64 / 64, 3);
  }

  lemma SixOff(n: nat, high: nat, low: nat)
    requires n == high * 64 + low && low < 64
    ensures n / 64 == high && n % 64 == low
  {
  }

  /** The letters written for three bytes give the bytes back. */
  lemma BitsAreBack(a: nat, b: nat, c: nat)
    requires a < 0x100 && b < 0x100 && c < 0x100
    ensures var n := Together(a, b, c);
            && Sextet(n, 0) * 4 + Sextet(n, 1) / 16 == a
            && Sextet(n, 1) % 16 * 16 + Sextet(n, 2) / 4 == b
            && Sextet(n, 2) % 4 * 64 + Sextet(n, 3) == c
            && (b == 0 ==> Sextet(n, 1) % 16 == 0)
            && (c == 0 ==> Sextet(n, 2) % 4 == 0)
  {
    Sextets(a, b, c);
  }

  /** The bytes read from four values give the values back. */
  lemma ValuesAreBack(v: nat, w: nat, x: nat, y: nat)
    requires v < 64 && w < 64 && x < 64 && y < 64
    ensures var a, b, c := v * 4 + w / 16, w % 16 * 16 + x / 4, x % 4 * 64 + y;
            && a < 0x100 && b < 0x100 && c < 0x100
            && Sextet(Together(a, b, c), 0) == v && Sextet(Together(a, b, c), 1) == w
            && Sextet(Together(a, b, c), 2) == x && Sextet(Together(a, b, c), 3) == y
  {
    Sextets(v * 4 + w / 16, w % 16 * 16 + x / 4, x % 4 * 64 + y);
  }

  lemma CutIsJoined(group: seq<byte>)
    requires 1 <= |group| <= 3
    ensures Joined(Cut(group)) == Some(group)
  {
    var block := group + [0, 0, 0];
    BitsAreBack(block[0], block[1], block[2]);
    var values := Cut(group);
    assert values[0] == Sextet(Number(group), 0) && values[1] == Sextet(Number(group), 1);
    if |group| == 1 {
      assert group == [group[0]];
    } else if |group| == 2 {
      assert values[2] == Sextet(Number(group), 2);
      assert group == [group[0], group[1]];
    } else {
      assert values[2] == Sextet(Number(group), 2) && values[3] == Sextet(Number(group), 3);
      assert group == [group[0], group[1], group[2]];
    }
  }

  lemma JoinedIsCut(values: seq<nat>)
    requires 2 <= |values| <= 4 && Sixes(values) && Joined(values).Some?
    ensures Cut(Joined(values).value) == values
  {
    var block := values + [0, 0];
    ValuesAreBack(block[0], block[1], block[2], block[3]);
  }

  /** A group is read back as what was written. */
  lemma GroupRoundTrip(abc: string, group: seq<byte>, last: bool)
    requires IsAlphabet(abc) && 1 <= |group| <= 3 && (last || |group| == 3)
    ensures GroupRead(GroupWritten(abc, group), last) == Some(group)
  {
    var s, values := GroupWritten(abc, group), Cut(group);
    CutIsJoined(group);
    assert Value('=') == None;
    assert Value(s[0]) == Some(values[0]) && Value(s[1]) == Some(values[1]);
    assert |group| >= 2 ==> Value(s[2]) == Some(values[2]);
    assert |group| == 3 ==> Value(s[3]) == Some(values[3]);
    var n := Letters(s, last);
    assert n == |values|;
    assert Values(s, n) == values;
  }

  lemma ReadIsCut(s: string, last: bool) returns (n: nat, group: seq<byte>)
    requires |s| == 4 && GroupRead(s, last).Some?
    ensures GroupRead(s, last) == Some(group) && 2 <= n <= 4 && |group| == n - 1
    ensures forall i :: n <= i < 4 ==> s[i] == '='
    ensures Spells(s, n) && Cut(group) == Values(s, n)
  {
    n, group := Letters(s, last), GroupRead(s, last).value;
    JoinedIsCut(Values(s, n));
  }

  /** Only what is written for a group is read as it. */
  lemma GroupReadIsWritten(abc: string, s: string, last: bool)
    requires IsAlphabet(abc) && |s| == 4 && GroupRead(s, last).Some?
    ensures GroupWritten(abc, GroupRead(s, last).value) == s
  {
    var n, group := ReadIsCut(s, last);
    SpelledBack(abc, s, n, group);
  }

  lemma SpelledBack(abc: string, s: string, n: nat, group: seq<byte>)
    requires IsAlphabet(abc) && |s| == 4 && 2 <= n <= 4 && |group| == n - 1
    requires forall i :: n <= i < 4 ==> s[i] == '='
    requires Spells(s, n) && Cut(group) == Values(s, n)
    ensures GroupWritten(abc, group) == s
  {
    forall i | 0 <= i < n ensures abc[Cut(group)[i]] == s[i] {
      assert Value(s[i]) == Some(Values(s, n)[i]);
    }
    LettersAre(abc, s, n, group);
  }

  lemma LettersAre(abc: string, s: string, n: nat, group: seq<byte>)
    requires |abc| == 64 && |s| == 4 && 2 <= n <= 4 && |group| == n - 1
    requires forall i :: n <= i < 4 ==> s[i] == '='
    requires forall i :: 0 <= i < n ==> abc[Cut(group)[i]] == s[i]
    ensures GroupWritten(abc, group) == s
  {
  }

  /** What is written is read back as it was. */
  lemma {:induction false} WrittenIsRead(abc: string, bytes: seq<byte>)
    requires IsAlphabet(abc)
    ensures Read(Written(abc, bytes)) == Some(bytes)
    decreases |bytes|
  {
    if bytes != [] {
      var k := Smaller(3, |bytes|);
      var s := Written(abc, bytes);
      assert s[..4] == GroupWritten(abc, bytes[..k]) && s[4..] == Written(abc, bytes[k..]);
      GroupRoundTrip(abc, bytes[..k], |s| == 4);
      WrittenIsRead(abc, bytes[k..]);
      GroupThenRest(s, bytes[..k], bytes[k..]);
      assert bytes[..k] + bytes[k..] == bytes;
    }
  }

  lemma GroupThenRest(s: string, group: seq<byte>, rest: seq<byte>)
    requires |s| >= 4 && GroupRead(s[..4], |s| == 4) == Some(group) && Read(s[4..]) == Some(rest)
    ensures Read(s) == Some(group + rest)
  {
  }

  /** Only what is written for some bytes is read as them: the text is the canonical one. */
  lemma {:induction false} ReadIsWritten(abc: string, s: string)
    requires IsAlphabet(abc) && Read(s).Some?
    ensures Written(abc, Read(s).value) == s
    decreases |s|
  {
    if s != "" {
      var last := |s| == 4;
      GroupReadIsWritten(abc, s[..4], last);
      ReadIsWritten(abc, s[4..]);
      var group, rest := GroupRead(s[..4], last).value, Read(s[4..]).value;
      if last {
        assert s[4..] == "" && rest == [];
      }
      assert Smaller(3, |group + rest|) == |group|;
      assert (group + rest)[..|group|] == group && (group + rest)[|group|..] == rest;
      assert s[..4] + s[4..] == s;
    }
  }

  /** Four letters for every started group of three bytes. */
  lemma {:induction false} LengthIsFourPerGroup(abc: string, bytes: seq<byte>)
    requires |abc| == 64
    ensures |Written(abc, bytes)| == (|bytes| + 2) / 3 * 4
    decreases |bytes|
  {
    if bytes != [] {
      var rest := bytes[Smaller(3, |bytes|)..];
      LengthIsFourPerGroup(abc, rest);
      assert |Written(abc, bytes)| == 4 + |Written(abc, rest)|;
      Started(|bytes|, |rest|);
    }
  }

  lemma Started(n: nat, rest: nat)
    requires n > 0 && rest == n - Smaller(3, n)
    ensures (n + 2) / 3 == (rest + 2) / 3 + 1
  {
  }

  lemma WrittenGroupByGroup(abc: string, bytes: seq<byte>, done: nat, size: nat)
    requires |abc| == 64 && done < |bytes| && size == Smaller(3, |bytes| - done)
    ensures Written(abc, bytes[done..]) == GroupWritten(abc, bytes[done..done + size]) + Written(abc, bytes[done + size..])
  {
    assert bytes[done..][..size] == bytes[done..done + size] && bytes[done..][size..] == bytes[done + size..];
  }

  lemma LetterAt(abc: string, group: seq<byte>, i: nat)
    requires |abc| == 64 && 1 <= |group| <= 3 && i < 4
    ensures GroupWritten(abc, group)[i] == if i <= |group| then abc[Sextet(Number(group), i)] else '='
  {
  }

  /** The four letters of one group. */
  method Group(abc: string, group: seq<byte>) returns (out: string)
    requires |abc| == 64 && 1 <= |group| <= 3
    ensures out == GroupWritten(abc, group)
  {
    out := "";
    var n := Number(group);
    ghost var all := GroupWritten(abc, group);
    for i := 0 to 4
      invariant out == all[..i]
    {
      LetterAt(abc, group, i);
      if i <= |group| {
        out := out + [abc[Sextet(n, i)]];
      } else {
        out := out + ['='];
      }
    }
  }

  /** The program's loop over groups of three bytes: a text that stands for the bytes. */
  method Base64(bytes: seq<byte>) returns (out: string)
    ensures forall s: string :: Read(s) == Some(bytes) <==> s == out
    ensures |out| == (|bytes| + 2) / 3 * 4
  {
    var abc := ABC;
    TheTableIsTheAlphabet(abc);
    out := Spelled(abc, bytes);
    WrittenIsRead(abc, bytes);
    LengthIsFourPerGroup(abc, bytes);
    forall s: string | Read(s) == Some(bytes) ensures s == out {
      ReadIsWritten(abc, s);
    }
  }

  method Spelled(abc: string, bytes: seq<byte>) returns (out: string)
    requires IsAlphabet(abc)
    ensures out == Written(abc, bytes)
  {
    out := "";
    var done := 0;
    while done < |bytes|
      invariant done <= |bytes|
      invariant out + Written(abc, bytes[done..]) == Written(abc, bytes)
    {
      var size := Smaller(3, |bytes| - done);
      WrittenGroupByGroup(abc, bytes, done, size);
      var group := Group(abc, bytes[done..done + size]);
      out := out + group;
      done := done + size;
    }
  }
}
