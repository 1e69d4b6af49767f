/** The text the codecs are made of: decimal numbers, hexadecimal bytes, and joining and splitting at a separator. */
module Text {
  import opened Types

  // ----- Decimal numbers -----

  function Digit(d: nat): (c: char)
    requires d < 10
    ensures '0' <= c <= '9' && c as int - '0' as int == d
  {
    ('0' as int + d) as char
  }

  function Natural(n: nat): (s: string)
    ensures |s| >= 1 && forall i :: 0 <= i < |s| ==> '0' <= s[i] <= '9'
  {
    if n < 10 then [Digit(n)] else Natural(n / 10) + [Digit(n % 10)]
  }

  /** `f"{i}"` for an integer. */
  function Decimal(i: int): string {
    if i < 0 then "-" + Natural(-i) else Natural(i)
  }

  function ParseNatural(s: string): Option<nat> {
    if s == "" then None else
    var c := s[|s| - 1];
    if !('0' <= c <= '9') then None else
    var d := c as int - '0' as int;
    if |s| == 1 then Some(d) else
    match ParseNatural(s[..|s| - 1])
    case None => None
    case Some(n) => Some(10 * n + d)
  }

  /** `int(s)`, for digits with an optional minus sign; the other spellings Python takes are refused here. */
  function ParseDecimal(s: string): Result<int> {
    var negative := s != "" && s[0] == '-';
    match ParseNatural(if negative then s[1..] else s)
    case None => Err(Malformed)
    case Some(n) =>
      var magnitude: int := n;
      Ok(if negative then -magnitude else magnitude)
  }

  lemma {:induction false} NaturalRoundTrip(n: nat)
    ensures ParseNatural(Natural(n)) == Some(n)
  {
    var s := Natural(n);
    if n >= 10 {
      NaturalRoundTrip(n / 10);
      assert s[..|s| - 1] == Natural(n / 10);
    }
  }

  /** The number divided by ten, `k` times over. */
  function WithoutLast(n: nat, k: nat): nat
    decreases k
  {
    if k == 0 then n else WithoutLast(n / 10, k - 1)
  }

  /** The printed number, digit by digit: the k-th digit from the end is what is left of the number after k divisions by
      ten, modulo ten, and there are as many digits as it takes to leave nothing, without leading zeros. */
  lemma {:induction false} NaturalText(n: nat)
    ensures var s := Natural(n);
            && WithoutLast(n, |s|) == 0 && (|s| > 1 ==> WithoutLast(n, |s| - 1) != 0)
            && forall k :: 0 <= k < |s| ==> s[|s| - 1 - k] as int - 48 == WithoutLast(n, k) % 10
  {
    var s := Natural(n);
    if n >= 10 {
      var front := Natural(n / 10);
      NaturalText(n / 10);
      assert s == front + [Digit(n % 10)];
      forall k | 0 <= k < |s| ensures s[|s| - 1 - k] as int - 48 == WithoutLast(n, k) % 10 {
        if k > 0 {
          assert s[|s| - 1 - k] == front[|front| - 1 - (k - 1)];
        }
      }
    } else {
      assert WithoutLast(n, 1) == WithoutLast(n / 10, 0);
    }
  }

  /** What the parser takes, and what it makes of it: one or more digits, and the number with these digits. */
  lemma {:induction false} NaturalParses(s: string)
    ensures ParseNatural(s).Some? <==> |s| >= 1 && forall i :: 0 <= i < |s| ==> '0' <= s[i] <= '9'
    ensures ParseNatural(s).Some? ==>
              var n := ParseNatural(s).value;
              && WithoutLast(n, |s|) == 0
              && forall k :: 0 <= k < |s| ==> s[|s| - 1 - k] as int - 48 == WithoutLast(n, k) % 10
  {
    if |s| >= 2 {
      var front, c := s[..|s| - 1], s[|s| - 1];
      NaturalParses(front);
      assert forall i :: 0 <= i < |front| ==> front[i] == s[i];
      if ParseNatural(s).Some? {
        var n, m := ParseNatural(s).value, ParseNatural(front).value;
        assert n / 10 == m && n % 10 == c as int - 48;
        forall k | 0 <= k < |s| ensures s[|s| - 1 - k] as int - 48 == WithoutLast(n, k) % 10 {
          if k > 0 {
            assert s[|s| - 1 - k] == front[|front| - 1 - (k - 1)];
          }
        }
      }
    } else if |s| == 1 && ParseNatural(s).Some? {
      assert WithoutLast(ParseNatural(s).value, 1) == WithoutLast(ParseNatural(s).value / 10, 0);
    }
  }

  /** An integer is digits, or a minus sign and digits. */
  lemma DecimalParses(s: string)
    ensures s == "" ==> ParseDecimal(s) == Err(Malformed)
    ensures s != "" && s[0] == '-' ==>
              ParseDecimal(s) == match ParseNatural(s[1..]) case None => Err(Malformed) case Some(n) => Ok(-(n as int))
    ensures s != "" && s[0] != '-' ==>
              ParseDecimal(s) == match ParseNatural(s) case None => Err(Malformed) case Some(n) => Ok(n)
  {
  }

  /** A negative number is a minus sign and its magnitude. */
  lemma DecimalText(i: int)
    ensures i >= 0 ==> Decimal(i) == Natural(i)
    ensures i < 0 ==> Decimal(i) == ['-'] + Natural(-i)
  {
  }

  lemma DecimalRoundTrip(i: int)
    ensures ParseDecimal(Decimal(i)) == Ok(i)
  {
    NaturalRoundTrip(if i < 0 then -i else i);
    assert i < 0 ==> Decimal(i)[1..] == Natural(-i);
  }

  // ----- Hexadecimal bytes -----

  const HEX_DIGITS: string := "0123456789abcdef"

  function Nibble(n: nat): char
    requires n < 16
  {
    HEX_DIGITS[n]
  }

  /** Both cases are read. */
  function ParseNibble(c: char): (r: Option<nat>)
    ensures r.Some? ==> r.value < 16
  {
    if '0' <= c <= '9' then Some(c as int - '0' as int)
    else if 'a' <= c <= 'f' then Some(c as int - 'a' as int + 10)
    else if 'A' <= c <= 'F' then Some(c as int - 'A' as int + 10)
    else None
  }

  lemma NibbleRoundTrip(n: nat)
    requires n < 16
    ensures ParseNibble(Nibble(n)) == Some(n)
    ensures Nibble(n) != ',' && Nibble(n) != ':'
  {
    assert HEX_DIGITS[n] == if n < 10 then ('0' as int + n) as char else ('a' as int + (n - 10)) as char;
  }

  /** `bytes.hex()`. */
  function Hex(bs: bytes): (s: string)
    ensures |s| == 2 * |bs|
  {
    if bs == [] then "" else [Nibble(bs[0] / 16), Nibble(bs[0] % 16)] + Hex(bs[1..])
  }

  lemma NibbleText(n: nat)
    requires n < 16
    ensures Nibble(n) as int == if n < 10 then 48 + n else 87 + n
  {
  }

  /** The text, character by character: two lower-case hexadecimal digits a byte, the high half first. */
  lemma {:induction false} HexText(bs: bytes, i: nat)
    requires i < |bs|
    ensures var high, low := bs[i] / 16, bs[i] % 16;
            && Hex(bs)[2 * i] as int == (if high < 10 then 48 + high else 87 + high)
            && Hex(bs)[2 * i + 1] as int == (if low < 10 then 48 + low else 87 + low)
  {
    hide Nibble;
    if i == 0 {
      NibbleText(bs[0] / 16);
      NibbleText(bs[0] % 16);
    } else {
      HexText(bs[1..], i - 1);
      assert Hex(bs)[2..] == Hex(bs[1..]);
      assert Hex(bs)[2 * i] == Hex(bs)[2..][2 * (i - 1)];
      assert Hex(bs)[2 * i + 1] == Hex(bs)[2..][2 * (i - 1) + 1];
    }
  }

  /** `bytes.fromhex(s)`, without the white space Python skips. */
  function FromHex(s: string): Result<bytes> {
    if s == "" then Ok([])
    else if |s| == 1 || ParseNibble(s[0]).None? || ParseNibble(s[1]).None? then Err(Malformed)
    else
      var rest :- FromHex(s[2..]);
      var b: byte := 16 * ParseNibble(s[0]).value + ParseNibble(s[1]).value;
      Ok([b] + rest)
  }

  /** What a hexadecimal digit is worth, in either case. */
  predicate Worth(c: char, n: int) {
    || ('0' <= c <= '9' && n == c as int - 48)
    || ('a' <= c <= 'f' && n == c as int - 87)
    || ('A' <= c <= 'F' && n == c as int - 55)
  }

  lemma NibbleParses(c: char)
    ensures ParseNibble(c).Some? ==> Worth(c, ParseNibble(c).value)
    ensures ParseNibble(c).None? ==> forall n :: !Worth(c, n)
  {
  }

  /** What `fromhex` takes: an even number of hexadecimal digits of either case. Each byte is its two digits. */
  lemma {:induction false} HexParses(s: string)
    ensures FromHex(s).Ok? <==> |s| % 2 == 0 && forall i :: 0 <= i < |s| ==> ParseNibble(s[i]).Some?
    ensures FromHex(s).Ok? ==>
              var bs := FromHex(s).value;
              && |s| == 2 * |bs|
              && forall i :: 0 <= i < |bs| ==>
                   Worth(s[2 * i], bs[i] / 16) && Worth(s[2 * i + 1], bs[i] % 16)
  {
    hide ParseNibble, Worth;
    if |s| >= 2 {
      var rest := s[2..];
      HexParses(rest);
      NibbleParses(s[0]);
      NibbleParses(s[1]);
      assert forall i :: 0 <= i < |rest| ==> rest[i] == s[i + 2];
      if FromHex(s).Err? && |s| % 2 == 0 && ParseNibble(s[0]).Some? && ParseNibble(s[1]).Some? {
        var i :| 0 <= i < |rest| && ParseNibble(rest[i]).None?;
        assert s[i + 2] == rest[i];
      }
      if FromHex(s).Ok? {
        var bs, tail := FromHex(s).value, FromHex(rest).value;
        assert bs[1..] == tail;
        forall i | 0 <= i < |bs| ensures Worth(s[2 * i], bs[i] / 16) && Worth(s[2 * i + 1], bs[i] % 16) {
          if i > 0 {
            assert bs[i] == tail[i - 1] && s[2 * i] == rest[2 * (i - 1)] && s[2 * i + 1] == rest[2 * (i - 1) + 1];
          }
        }
      }
    }
  }

  lemma {:induction false} HexRoundTrip(bs: bytes)
    ensures FromHex(Hex(bs)) == Ok(bs)
  {
    hide Nibble, ParseNibble;
    if bs != [] {
      HexRoundTrip(bs[1..]);
      NibbleRoundTrip(bs[0] / 16);
      NibbleRoundTrip(bs[0] % 16);
      assert Hex(bs)[2..] == Hex(bs[1..]);
      assert 16 * (bs[0] / 16) + bs[0] % 16 == bs[0];
      assert [bs[0]] + bs[1..] == bs;
    }
  }

  // ----- Fields -----

  /** Text without the two separators. */
  predicate Plain(s: string) {
    ',' !in s && ':' !in s
  }

  lemma DecimalPlain(i: int)
    ensures Plain(Decimal(i))
  {
    var digits := Natural(if i < 0 then -i else i);
    assert Decimal(i) == if i < 0 then "-" + digits else digits;
    assert ',' !in digits && ':' !in digits;
  }

  lemma {:induction false} HexPlain(bs: bytes)
    ensures Plain(Hex(bs))
  {
    if bs != [] {
      HexPlain(bs[1..]);
      NibbleRoundTrip(bs[0] / 16);
      NibbleRoundTrip(bs[0] % 16);
    }
  }

  function Join(parts: seq<string>, sep: char): string
    requires |parts| >= 1
  {
    if |parts| == 1 then parts[0] else parts[0] + [sep] + Join(parts[1..], sep)
  }

  /** `s.split(sep)`. */
  function Split(s: string, sep: char): (r: seq<string>)
    ensures |r| >= 1
  {
    if s == "" then [""]
    else if s[0] == sep then [""] + Split(s[1..], sep)
    else
      var rest := Split(s[1..], sep);
      [[s[0]] + rest[0]] + rest[1..]
  }

  lemma {:induction false} SplitFirst(first: string, rest: string, sep: char)
    requires sep !in first
    ensures Split(first, sep) == [first]
    ensures Split(first + [sep] + rest, sep) == [first] + Split(rest, sep)
  {
    var whole := first + [sep] + rest;
    if first == "" {
      assert whole[1..] == rest;
    } else {
      SplitFirst(first[1..], rest, sep);
      assert whole[1..] == first[1..] + [sep] + rest;
      assert [first[0]] + first[1..] == first;
    }
  }

  /** Joining undoes splitting, for every text, and no part contains the separator. */
  lemma {:induction false} JoinSplit(s: string, sep: char)
    ensures Join(Split(s, sep), sep) == s
    ensures forall i :: 0 <= i < |Split(s, sep)| ==> sep !in Split(s, sep)[i]
  {
    if s != "" {
      JoinSplit(s[1..], sep);
      var rest := Split(s[1..], sep);
      assert s == [s[0]] + s[1..];
      if s[0] == sep {
        assert ([""] + rest)[1..] == rest;
      } else {
        assert ([[s[0]] + rest[0]] + rest[1..])[1..] == rest[1..];
      }
    }
  }

  /** Splitting undoes joining when no part contains the separator. */
  lemma {:induction false} SplitJoin(parts: seq<string>, sep: char)
    requires |parts| >= 1 && forall i :: 0 <= i < |parts| ==> sep !in parts[i]
    ensures Split(Join(parts, sep), sep) == parts
  {
    if |parts| == 1 {
      SplitFirst(parts[0], "", sep);
    } else {
      SplitJoin(parts[1..], sep);
      SplitFirst(parts[0], Join(parts[1..], sep), sep);
    }
  }
}
