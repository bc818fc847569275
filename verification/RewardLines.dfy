/** Reward lines as text: printed by the payout, read back by the import and by the next payout. */
module RewardLines {
  import opened Wrappers
  import opened Words
  import opened Seqs

  // ----- numbers -----

  function DigitChar(d: nat): (c: char)
    requires d < 16
    ensures DigitValue(c) == d && !IsSeparator(c) && (d < 10 ==> '0' <= c <= '9')
  {
    "0123456789abcdef"[d]
  }

  /** The value of a digit; 36 for anything that is none. */
  function DigitValue(c: char): nat
  {
    if '0' <= c <= '9' then (c as int) - ('0' as int)
    else if 'a' <= c <= 'f' then (c as int) - ('a' as int) + 10
    else if 'A' <= c <= 'F' then (c as int) - ('A' as int) + 10
    else 36
  }

  /** The digits are those of both cases, and no other character is one. */
  lemma DigitIs(c: char, d: nat)
    requires d < 16
    ensures DigitValue(c) == d <==> c == "0123456789abcdef"[d] || c == "0123456789ABCDEF"[d]
  {
  }

  /** The number a text of digits stands for; the empty text stands for 0. */
  function Value(base: nat, s: string): Option<nat>
  {
    if |s| == 0 then Some(0)
    else
      var head, d := Value(base, s[..|s| - 1]), DigitValue(s[|s| - 1]);
      if head.None? || d >= base then None else Some(head.value * base + d)
  }

  function Decimal(n: nat): (s: string)
    ensures |s| > 0
  {
    if n < 10 then [DigitChar(n)] else Decimal(n / 10) + [DigitChar(n % 10)]
  }

  /** The decimal text of a big integer. */
  function IntText(i: int): string
  {
    if i < 0 then "-" + Decimal(-i) else Decimal(i)
  }

  function Signed(s: string): (bool, string)
  {
    if |s| > 0 && s[0] == '-' then (true, s[1..]) else if |s| > 0 && s[0] == '+' then (false, s[1..]) else (false, s)
  }

  function WithSign(negative: bool, v: Option<nat>): Option<int>
  {
    if v.None? then None
    else
      var i: int := v.value;
      Some(if negative then -i else i)
  }

  /** Reading a big integer in base 10. */
  function SetString10(s: string): Option<int>
  {
    var (negative, digits) := Signed(s);
    if |digits| == 0 then None else WithSign(negative, Value(10, digits))
  }

  /** Underscores between digits, or between a base prefix and a digit. */
  predicate SeparatorsOk(s: string, afterPrefix: bool)
  {
    forall i :: 0 <= i < |s| && s[i] == '_' ==> i + 1 < |s| && if i == 0 then afterPrefix else s[i - 1] != '_'
  }

  function NoUnderscores(s: string): string
  {
    if |s| == 0 then ""
    else NoUnderscores(s[..|s| - 1]) + if s[|s| - 1] == '_' then "" else [s[|s| - 1]]
  }

  /** The number a text of digits with separators stands for. */
  function Grouped(base: nat, s: string, afterPrefix: bool): Option<nat>
  {
    if SeparatorsOk(s, afterPrefix) then Value(base, NoUnderscores(s)) else None
  }

  /** The number after a base prefix; without digits there is none. */
  function Prefixed(base: nat, digits: string): Option<nat>
  {
    if |digits| == 0 then None else Grouped(base, digits, true)
  }

  /** Reading a big integer with base 0: the base follows from the prefix, and a leading zero means octal. */
  function SetString0(s: string): Option<int>
  {
    var (negative, digits) := Signed(s);
    if |digits| == 0 then None
    else if digits[0] != '0' || |digits| == 1 then WithSign(negative, Grouped(10, digits, false))
    else if digits[1] == 'x' || digits[1] == 'X' then WithSign(negative, Prefixed(16, digits[2..]))
    else if digits[1] == 'b' || digits[1] == 'B' then WithSign(negative, Prefixed(2, digits[2..]))
    else if digits[1] == 'o' || digits[1] == 'O' then WithSign(negative, Prefixed(8, digits[2..]))
    else WithSign(negative, Grouped(8, digits[1..], true))
  }

  /** Text that is a number as it stands needs no separators and has none. */
  lemma {:induction false} PlainGrouped(base: nat, s: string, afterPrefix: bool)
    requires base <= 36 && Value(base, s).Some?
    ensures '_' !in s && NoUnderscores(s) == s && Grouped(base, s, afterPrefix) == Value(base, s)
  {
    if |s| > 0 {
      PlainGrouped(base, s[..|s| - 1], afterPrefix);
      InitLast(s);
    }
  }

  /** Decimal text reads back, starts with a digit, and has no leading zero unless it is zero's. */
  lemma {:induction false} DecimalReads(n: nat)
    ensures Value(10, Decimal(n)) == Some(n)
    ensures '0' <= Decimal(n)[0] <= '9'
    ensures Decimal(n)[0] == '0' ==> n == 0 && |Decimal(n)| == 1
    ensures forall c :: c in Decimal(n) ==> !IsSeparator(c)
  {
    if n >= 10 {
      DecimalReads(n / 10);
      var s := Decimal(n);
      assert s[..|s| - 1] == Decimal(n / 10);
    } else {
      assert [DigitChar(n)][..0] == [];
    }
  }

  /** Digits without a leading zero read the same in both ways, with or without a minus sign. */
  lemma SignedReads(digits: string, n: int)
    requires n >= 0 && |digits| > 0 && '0' <= digits[0] <= '9' && (digits[0] == '0' ==> |digits| == 1)
    requires Value(10, digits) == Some(n)
    ensures SetString10(digits) == Some(n) && SetString0(digits) == Some(n)
    ensures SetString10("-" + digits) == Some(-n) && SetString0("-" + digits) == Some(-n)
  {
    assert ("-" + digits)[1..] == digits;
    PlainGrouped(10, digits, false);
  }

  /** The text of a number means the same in base 10 and, having no leading zero, under the base-0 rules. */
  lemma IntTextReads(i: int)
    ensures |IntText(i)| > 0
    ensures SetString10(IntText(i)) == Some(i)
    ensures SetString0(IntText(i)) == Some(i)
    ensures forall c :: c in IntText(i) ==> !IsSeparator(c)
  {
    var n: nat := if i < 0 then -i else i;
    DecimalReads(n);
    SignedReads(Decimal(n), n);
  }

  /** A leading zero makes the digits after it octal. */
  lemma OctalReads(digits: string, n: nat)
    requires |digits| >= 2 && '0' <= digits[0] <= '9' && Value(8, digits) == Some(n)
    ensures SetString0("0" + digits) == Some(n)
  {
    var s := "0" + digits;
    assert s[1..] == digits;
    OctalRule(s);
    PlainGrouped(8, digits, true);
  }

  lemma OctalRule(s: string)
    requires |s| >= 2 && s[0] == '0' && '0' <= s[1] <= '9'
    ensures SetString0(s) == WithSign(false, Grouped(8, s[1..], true))
  {
  }

  lemma PlainRule(s: string)
    requires |s| > 0 && '1' <= s[0] <= '9'
    ensures SetString0(s) == WithSign(false, Grouped(10, s, false))
  {
  }

  lemma OneUnderscoreOk(a: string, b: string)
    requires |a| > 0 && |b| > 0 && '_' !in a && '_' !in b
    ensures SeparatorsOk(a + "_" + b, false)
  {
    var s := a + "_" + b;
    forall i | 0 <= i < |s| && s[i] == '_'
      ensures i == |a|
    {
      assert i < |a| ==> s[i] == a[i] && a[i] in a;
      assert i > |a| ==> s[i] == b[i - |a| - 1] && b[i - |a| - 1] in b;
    }
    assert s[|a| - 1] == a[|a| - 1] && a[|a| - 1] in a;
  }

  /** An underscore between digits does not change the number. */
  lemma UnderscoreRead(a: string, b: string, n: nat)
    requires |a| > 0 && '1' <= a[0] <= '9' && |b| > 0 && Value(10, a + b) == Some(n)
    ensures SetString0(a + "_" + b) == WithSign(false, Some(n))
  {
    PlainGrouped(10, a + b, false);
    assert forall i :: 0 <= i < |a| ==> (a + b)[i] == a[i];
    assert forall i :: 0 <= i < |b| ==> (a + b)[|a| + i] == b[i];
    OneUnderscoreOk(a, b);
    Stripped(a, b);
    PlainRule(a + "_" + b);
  }

  /** One at the end or next to another makes it none. */
  lemma UnderscoreMisplaced(s: string, i: nat)
    requires i < |s| && '1' <= s[0] <= '9' && s[i] == '_' && (i + 1 == |s| || s[i + 1] == '_')
    ensures SetString0(s).None?
  {
    PlainRule(s);
  }

  lemma {:induction false} Stripped(a: string, b: string)
    requires '_' !in a && '_' !in b
    ensures NoUnderscores(a + "_" + b) == a + b
  {
    if |b| == 0 {
      assert a + "_" + b == a + "_" && (a + "_")[..|a|] == a;
      Unchanged(a);
    } else {
      var n := |b| - 1;
      Stripped(a, b[..n]);
      assert b[n] in b && (a + "_" + b)[..|a| + 1 + n] == a + "_" + b[..n];
      assert a + b == a + b[..n] + [b[n]];
    }
  }

  lemma {:induction false} Unchanged(s: string)
    requires '_' !in s
    ensures NoUnderscores(s) == s
  {
    if |s| > 0 {
      Unchanged(s[..|s| - 1]);
      InitLast(s);
    }
  }

  /** The other prefixes: 16, 8 or 2 digits in `0x`, `0o` and `0b`, in either case of the letter. */
  lemma PrefixReads(s: string, base: nat, n: nat)
    requires |s| > 2 && s[0] == '0' && Value(base, s[2..]) == Some(n)
    requires || (base == 16 && (s[1] == 'x' || s[1] == 'X'))
             || (base == 8 && (s[1] == 'o' || s[1] == 'O'))
             || (base == 2 && (s[1] == 'b' || s[1] == 'B'))
    ensures SetString0(s) == WithSign(false, Some(n)) && SetString0("-" + s) == WithSign(true, Some(n))
  {
    PlainGrouped(base, s[2..], true);
    PrefixRule(s, base);
  }

  lemma PrefixRule(s: string, base: nat)
    requires |s| > 2 && s[0] == '0'
    requires base == if s[1] == 'x' || s[1] == 'X' then 16 else if s[1] == 'o' || s[1] == 'O' then 8 else 2
    requires base == 2 ==> s[1] == 'b' || s[1] == 'B'
    ensures SetString0(s) == WithSign(false, Grouped(base, s[2..], true))
    ensures SetString0("-" + s) == WithSign(true, Grouped(base, s[2..], true))
  {
    assert ("-" + s)[1..] == s;
  }

  /** The base-0 rules do read other text differently: a leading zero turns decimal digits into octal ones. */
  lemma LeadingZeroIsOctal()
    ensures SetString10("010") == Some(10) && SetString0("010") == Some(8)
  {
    assert "010"[..2] == "01" && "01"[..1] == "0" && "0"[..0] == "";
    assert Value(10, "0") == Some(0) && Value(10, "01") == Some(1);
    assert "10"[..1] == "1" && "1"[..0] == "";
    assert Value(8, "1") == Some(1);
    OctalReads("10", 8);
    assert "0" + "10" == "010";
  }

  function Pow16(w: nat): (p: nat)
    ensures p > 0
  {
    if w == 0 then 1 else 16 * Pow16(w - 1)
  }

  function Hex(n: nat, w: nat): (s: string)
    ensures |s| == w
  {
    if w == 0 then "" else Hex(n / 16, w - 1) + [DigitChar(n % 16)]
  }

  predicate IsHex(s: string)
  {
    forall c :: c in s ==> DigitValue(c) < 16
  }

  predicate IsLowerHex(s: string)
  {
    forall c :: c in s ==> DigitValue(c) < 16 && !('A' <= c <= 'F')
  }

  lemma {:induction false} HexReads(n: nat, w: nat)
    requires n < Pow16(w)
    ensures Value(16, Hex(n, w)) == Some(n)
    ensures IsLowerHex(Hex(n, w)) && forall c :: c in Hex(n, w) ==> !IsSeparator(c)
  {
    if w > 0 {
      HexReads(n / 16, w - 1);
      var s := Hex(n, w);
      assert s[..w - 1] == Hex(n / 16, w - 1);
      LowerDigit(n % 16);
    }
  }

  lemma LowerDigit(d: nat)
    requires d < 16
    ensures !('A' <= DigitChar(d) <= 'F')
  {
  }

  // ----- fields -----

  /** White space or a comma. */
  predicate IsSeparator(c: char)
  {
    IsSpace(c) || c == ','
  }

  predicate IsSpace(c: char)
  {
    c == ' ' || c == '\t' || c == '\n' || c == '\r' || c == '\U{0C}'
  }

  /** The first separator at or after `i`, or the end. */
  function SeparatorFrom(s: string, i: nat): (j: nat)
    requires i <= |s|
    ensures i <= j <= |s|
    ensures j < |s| ==> IsSeparator(s[j])
    ensures forall k :: i <= k < j ==> !IsSeparator(s[k])
    decreases |s| - i
  {
    if i == |s| || IsSeparator(s[i]) then i else SeparatorFrom(s, i + 1)
  }

  /** The end of the run of separators at `i`. */
  function RunEnd(s: string, i: nat): (j: nat)
    requires i <= |s|
    ensures i <= j <= |s|
    ensures j < |s| ==> !IsSeparator(s[j])
    ensures forall k :: i <= k < j ==> IsSeparator(s[k])
    decreases |s| - i
  {
    if i == |s| || !IsSeparator(s[i]) then i else RunEnd(s, i + 1)
  }

  /** Splitting at runs of separators; leading and trailing runs leave an empty field. */
  function Split(s: string): seq<string>
    decreases |s|
  {
    var i := SeparatorFrom(s, 0);
    if i == |s| then [s] else [s[..i]] + Split(s[RunEnd(s, i)..])
  }

  function Join(parts: seq<string>): string
    requires |parts| > 0
  {
    if |parts| == 1 then parts[0] else parts[0] + "," + Join(parts[1..])
  }

  predicate IsField(s: string)
  {
    |s| > 0 && forall c :: c in s ==> !IsSeparator(c)
  }

  lemma {:induction false} JoinStarts(parts: seq<string>)
    requires |parts| > 0 && forall i :: 0 <= i < |parts| ==> IsField(parts[i])
    ensures |Join(parts)| >= |parts[0]| > 0 && Join(parts)[..|parts[0]|] == parts[0]
    ensures !IsSeparator(Join(parts)[0])
    ensures forall c :: c in Join(parts) ==> !IsSpace(c)
  {
    assert parts[0][0] in parts[0];
    if |parts| > 1 {
      JoinStarts(parts[1..]);
    }
  }

  /** Splitting undoes joining, for fields that are not empty and contain no separator. */
  lemma {:induction false} SplitJoin(parts: seq<string>)
    requires |parts| > 0 && forall i :: 0 <= i < |parts| ==> IsField(parts[i])
    ensures Split(Join(parts)) == parts
  {
    var s, p := Join(parts), parts[0];
    JoinStarts(parts);
    forall k | 0 <= k < |p|
      ensures !IsSeparator(s[k])
    {
      assert s[k] == s[..|p|][k] == p[k];
      assert p[k] in p;
    }
    if |parts| == 1 {
      assert SeparatorFrom(s, 0) == |s|;
    } else {
      JoinStarts(parts[1..]);
      SplitJoin(parts[1..]);
      var rest := Join(parts[1..]);
      assert s[|p|] == ',' && s[|p| + 1..] == rest && s[|p| + 1] == rest[0];
      assert SeparatorFrom(s, 0) == |p|;
      assert RunEnd(s, |p|) == |p| + 1;
    }
  }

  const BLANKS_AND_COMMA: string := " \t\n\r\U{0C},"

  lemma SeparatorIs(c: char)
    ensures IsSeparator(c) <==> c in BLANKS_AND_COMMA
    ensures IsSpace(c) <==> c in BLANKS_AND_COMMA && c != ','
  {
    assert BLANKS_AND_COMMA == [' ', '\t', '\n', '\r', '\U{0C}', ','];
  }

  /** Fields with any texts between them. */
  function JoinWith(parts: seq<string>, between: seq<string>): string
    requires |parts| == |between| + 1
  {
    if |parts| == 1 then parts[0] else parts[0] + between[0] + JoinWith(parts[1..], between[1..])
  }

  predicate IsBetween(s: string)
  {
    |s| > 0 && forall c :: c in s ==> c in BLANKS_AND_COMMA
  }

  lemma JoinWithStarts(parts: seq<string>, between: seq<string>)
    requires |parts| == |between| + 1 && IsField(parts[0])
    ensures |JoinWith(parts, between)| > 0 && !IsSeparator(JoinWith(parts, between)[0])
  {
    assert parts[0][0] in parts[0];
    assert JoinWith(parts, between)[0] == parts[0][0];
  }

  lemma SplitAt(s: string, i: nat, j: nat)
    requires i < j < |s| && !IsSeparator(s[j])
    requires forall k :: 0 <= k < i ==> !IsSeparator(s[k])
    requires forall k :: i <= k < j ==> IsSeparator(s[k])
    ensures Split(s) == [s[..i]] + Split(s[j..])
  {
    assert IsSeparator(s[i]);
    assert SeparatorFrom(s, 0) == i;
    assert RunEnd(s, i) == j;
  }

  lemma ThreeParts(p: string, sep: string, rest: string)
    ensures (p + sep + rest)[..|p|] == p && (p + sep + rest)[|p| + |sep|..] == rest
    ensures forall k :: 0 <= k < |p| ==> (p + sep + rest)[k] == p[k]
    ensures forall k :: |p| <= k < |p| + |sep| ==> (p + sep + rest)[k] == sep[k - |p|]
  {
  }

  lemma SplitFirst(p: string, sep: string, rest: string)
    requires IsField(p) && IsBetween(sep) && |rest| > 0 && !IsSeparator(rest[0])
    ensures Split(p + sep + rest) == [p] + Split(rest)
  {
    var s := p + sep + rest;
    ThreeParts(p, sep, rest);
    forall k | 0 <= k < |p|
      ensures !IsSeparator(s[k])
    {
      assert p[k] in p;
    }
    forall k | |p| <= k < |p| + |sep|
      ensures IsSeparator(s[k])
    {
      assert sep[k - |p|] in sep;
      SeparatorIs(s[k]);
    }
    SplitAt(s, |p|, |p| + |sep|);
  }

  /** Whatever blanks and commas stand between them, splitting finds the fields. */
  lemma {:induction false} SplitFindsFields(parts: seq<string>, between: seq<string>)
    requires |parts| == |between| + 1
    requires forall i :: 0 <= i < |parts| ==> IsField(parts[i])
    requires forall i :: 0 <= i < |between| ==> IsBetween(between[i])
    ensures Split(JoinWith(parts, between)) == parts
  {
    if |parts| == 1 {
      assert forall k :: 0 <= k < |parts[0]| ==> parts[0][k] in parts[0];
      assert SeparatorFrom(parts[0], 0) == |parts[0]|;
    } else {
      SplitFindsFields(parts[1..], between[1..]);
      JoinWithStarts(parts[1..], between[1..]);
      SplitFirst(parts[0], between[0], JoinWith(parts[1..], between[1..]));
    }
  }

  // ----- lines -----

  const ADDRESS_DIGITS: nat := 40
  const HASH_DIGITS: nat := 64

  /** What a line records. The number is printed with the share only. */
  datatype Entry = Entry(account: nat, reward: int, share: Option<int>, number: nat, hash: Option<nat>)

  predicate ValidEntry(e: Entry)
  {
    && e.account < Pow16(ADDRESS_DIGITS)
    && e.number < TWO_TO_THE_64
    && (e.hash.Some? ==> e.hash.value < Pow16(HASH_DIGITS))
  }

  function AddressText(account: nat): string
  {
    "0x" + Hex(account, ADDRESS_DIGITS)
  }

  function HashText(hash: nat): string
  {
    "0x" + Hex(hash, HASH_DIGITS)
  }

  /** The fields `WriteSendRewardResult` writes, by whether there is a share and whether there is a hash. */
  function Arrange(account: string, reward: string, share: string, number: string, hash: string,
                   hasShare: bool, hasHash: bool): (parts: seq<string>)
    ensures |parts| > 0
  {
    if !hasHash then
      if hasShare then [account, reward, share, number] else [account, reward]
    else
      if hasShare then [account, reward, share, number, hash] else [account, reward, hash]
  }

  function ShareText(e: Entry): string
  {
    if e.share.Some? then IntText(e.share.value) else ""
  }

  function HashTextOf(e: Entry): string
  {
    if e.hash.Some? then HashText(e.hash.value) else ""
  }

  function Fields(e: Entry): (parts: seq<string>)
    ensures |parts| > 0
  {
    Arrange(AddressText(e.account), IntText(e.reward), ShareText(e), IntText(e.number), HashTextOf(e),
            e.share.Some?, e.hash.Some?)
  }

  function Print(e: Entry): string
  {
    Join(Fields(e))
  }

  /** A printed line: the account, the reward, with a share the share and the number, and with a hash the hash, joined
      by commas. */
  lemma PrintIs(e: Entry)
    ensures Print(e) ==
            AddressText(e.account) + "," + IntText(e.reward) +
            (if e.share.Some? then "," + IntText(e.share.value) + "," + IntText(e.number) else "") +
            if e.hash.Some? then "," + HashText(e.hash.value) else ""
  {
    var a, r := AddressText(e.account), IntText(e.reward);
    var n := IntText(e.number);
    if e.share.Some? && e.hash.Some? {
      JoinFive(a, r, IntText(e.share.value), n, HashText(e.hash.value));
    } else if e.share.Some? {
      JoinFour(a, r, IntText(e.share.value), n);
    } else if e.hash.Some? {
      JoinThree(a, r, HashText(e.hash.value));
    } else {
      JoinTwo(a, r);
    }
  }

  lemma JoinTwo(a: string, b: string)
    ensures Join([a, b]) == a + "," + b
  {
    assert [a, b][1..] == [b];
  }

  lemma JoinThree(a: string, b: string, c: string)
    ensures Join([a, b, c]) == a + "," + b + "," + c
  {
    JoinTwo(b, c);
    assert [a, b, c][1..] == [b, c];
  }

  lemma JoinFour(a: string, b: string, c: string, d: string)
    ensures Join([a, b, c, d]) == a + "," + b + ("," + c + "," + d)
  {
    JoinThree(b, c, d);
    assert [a, b, c, d][1..] == [b, c, d];
  }

  lemma JoinFive(a: string, b: string, c: string, d: string, e: string)
    ensures Join([a, b, c, d, e]) == a + "," + b + ("," + c + "," + d) + ("," + e)
  {
    JoinFour(b, c, d, e);
    assert [a, b, c, d, e][1..] == [b, c, d, e];
  }

  /** Addresses and hashes are printed as `0x` and lower-case hexadecimal digits of full width. */
  lemma TextsAre(account: nat, hash: nat)
    requires account < Pow16(ADDRESS_DIGITS) && hash < Pow16(HASH_DIGITS)
    ensures |AddressText(account)| == 42 && AddressText(account)[..2] == "0x"
    ensures IsLowerHex(AddressText(account)[2..]) && Value(16, AddressText(account)[2..]) == Some(account)
    ensures |HashText(hash)| == 66 && HashText(hash)[..2] == "0x"
    ensures IsLowerHex(HashText(hash)[2..]) && Value(16, HashText(hash)[2..]) == Some(hash)
  {
    HexReads(account, ADDRESS_DIGITS);
    HexReads(hash, HASH_DIGITS);
    assert AddressText(account)[2..] == Hex(account, ADDRESS_DIGITS);
    assert HashText(hash)[2..] == Hex(hash, HASH_DIGITS);
  }

  function StripPrefix(s: string): string
  {
    if |s| >= 2 && s[0] == '0' && (s[1] == 'x' || s[1] == 'X') then s[2..] else s
  }

  /** `IsHexAddress` and `HexToAddress` together. */
  function ParseAddress(s: string): Option<nat>
  {
    var digits := StripPrefix(s);
    if |digits| != ADDRESS_DIGITS || !IsHex(digits) then None else Value(16, digits)
  }

  /** A hash is accepted only in its own printed form. */
  function ParseHash(s: string): Option<nat>
  {
    if |s| != HASH_DIGITS + 2 || s[..2] != "0x" || !IsLowerHex(s[2..]) then None else Value(16, s[2..])
  }

  datatype Imported = Imported(account: nat, reward: int, share: Option<int>, number: Option<int>, hash: Option<nat>)

  /** An optional field: absent, unreadable, or read. */
  datatype Field<T> = Absent | Wrong | Got(value: T)

  function Optional<T>(s: string, parse: string -> Option<T>): Field<T>
  {
    if s == "" then Absent
    else
      var v := parse(s);
      if v.None? then Wrong else Got(v.value)
  }

  function AsOption<T>(f: Field<T>): Option<T>
  {
    if f.Got? then Some(f.value) else None
  }

  /** `processLine`: shape by the number of fields, then every field checked; `None` where the source gives up. */
  function ProcessLine(line: string): Option<Imported>
  {
    ProcessFields(Split(line))
  }

  function ProcessFields(parts: seq<string>): Option<Imported>
  {
    if |parts| < 2 then None
    else
      var shareStr := if |parts| > 3 then parts[2] else "";
      var numberStr := if |parts| > 3 then parts[3] else "";
      var txHashStr := if |parts| > 4 then parts[4] else if |parts| == 3 then parts[2] else "";
      var account, reward := ParseAddress(parts[0]), SetString10(parts[1]);
      var share, number := Optional(shareStr, SetString10), Optional(numberStr, SetString10);
      var hash := Optional(txHashStr, ParseHash);
      if account.None? || reward.None? || share.Wrong? || number.Wrong? || hash.Wrong? then None
      else Some(Imported(account.value, reward.value, AsOption(share), AsOption(number), AsOption(hash)))
  }

  /** An address is 40 hexadecimal digits, with or without `0x` or `0X` before them. */
  lemma ParseAddressIs(s: string)
    ensures ParseAddress(s).Some? <==>
            || (|s| == 40 && IsHex(s))
            || (|s| == 42 && s[0] == '0' && (s[1] == 'x' || s[1] == 'X') && IsHex(s[2..]))
    ensures ParseAddress(s).Some? ==> ParseAddress(s) == Value(16, if |s| == 40 then s else s[2..])
  {
    if |s| == 40 && s[0] == '0' && (s[1] == 'x' || s[1] == 'X') {
      assert s[1] in s;
    }
    if IsHex(StripPrefix(s)) {
      HexHasValue(StripPrefix(s));
    }
  }

  lemma {:induction false} HexHasValue(s: string)
    requires IsHex(s)
    ensures Value(16, s).Some?
  {
    if |s| > 0 {
      assert s[|s| - 1] in s;
      HexHasValue(s[..|s| - 1]);
    }
  }

  /** When a line is imported, and as what: at least two fields, the hash last when there are three or five, every field
      that is there well-formed. */
  lemma ImportedIs(parts: seq<string>)
    ensures
      var n := |parts|;
      ProcessFields(parts).Some? <==>
      && n >= 2 && ParseAddress(parts[0]).Some? && SetString10(parts[1]).Some?
      && (n == 3 ==> parts[2] == "" || ParseHash(parts[2]).Some?)
      && (n >= 4 ==> parts[2] == "" || SetString10(parts[2]).Some?)
      && (n >= 4 ==> parts[3] == "" || SetString10(parts[3]).Some?)
      && (n >= 5 ==> parts[4] == "" || ParseHash(parts[4]).Some?)
    ensures ProcessFields(parts).Some? ==>
              var n, r := |parts|, ProcessFields(parts).value;
              && ParseAddress(parts[0]) == Some(r.account) && SetString10(parts[1]) == Some(r.reward)
              && r.share == (if n >= 4 && parts[2] != "" then SetString10(parts[2]) else None)
              && r.number == (if n >= 4 && parts[3] != "" then SetString10(parts[3]) else None)
              && r.hash == if n == 3 && parts[2] != "" then ParseHash(parts[2])
                           else if n >= 5 && parts[4] != "" then ParseHash(parts[4])
                           else None
  {
  }

  lemma AddressIsField(account: nat)
    requires account < Pow16(ADDRESS_DIGITS)
    ensures IsField(AddressText(account))
  {
    HexReads(account, ADDRESS_DIGITS);
  }

  lemma HashIsField(hash: nat)
    requires hash < Pow16(HASH_DIGITS)
    ensures IsField(HashText(hash))
  {
    HexReads(hash, HASH_DIGITS);
  }

  lemma ArrangeFields(a: string, r: string, s: string, n: string, h: string, hasShare: bool, hasHash: bool)
    requires IsField(a) && IsField(r) && (hasShare ==> IsField(s) && IsField(n)) && (hasHash ==> IsField(h))
    ensures forall i :: 0 <= i < |Arrange(a, r, s, n, h, hasShare, hasHash)| ==>
              IsField(Arrange(a, r, s, n, h, hasShare, hasHash)[i])
    ensures Split(Join(Arrange(a, r, s, n, h, hasShare, hasHash))) == Arrange(a, r, s, n, h, hasShare, hasHash)
  {
    SplitJoin(Arrange(a, r, s, n, h, hasShare, hasHash));
  }

  /** A printed line splits into the fields it was printed from. */
  lemma PrintSplits(e: Entry)
    requires ValidEntry(e)
    ensures forall i :: 0 <= i < |Fields(e)| ==> IsField(Fields(e)[i])
    ensures Split(Print(e)) == Fields(e)
  {
    AddressIsField(e.account);
    IntTextReads(e.reward);
    IntTextReads(e.number);
    if e.share.Some? {
      IntTextReads(e.share.value);
    }
    if e.hash.Some? {
      HashIsField(e.hash.value);
    }
    ArrangeFields(AddressText(e.account), IntText(e.reward), ShareText(e), IntText(e.number), HashTextOf(e),
                  e.share.Some?, e.hash.Some?);
  }

  /** The four shapes, for any texts that read as the values. */
  lemma ProcessShapes(a: string, r: string, s: string, n: string, h: string, account: nat, reward: int,
                      share: Option<int>, number: int, hash: Option<nat>)
    requires ParseAddress(a) == Some(account) && SetString10(r) == Some(reward)
    requires share.Some? ==> s != "" && SetString10(s) == share && n != "" && SetString10(n) == Some(number)
    requires hash.Some? ==> h != "" && ParseHash(h) == hash
    ensures ProcessFields(Arrange(a, r, s, n, h, share.Some?, hash.Some?)) ==
            Some(Imported(account, reward, share, if share.Some? then Some(number) else None, hash))
  {
  }

  lemma AddressReads(account: nat)
    requires account < Pow16(ADDRESS_DIGITS)
    ensures ParseAddress(AddressText(account)) == Some(account)
  {
    HexReads(account, ADDRESS_DIGITS);
    assert StripPrefix(AddressText(account)) == Hex(account, ADDRESS_DIGITS);
  }

  lemma HashReads(hash: nat)
    requires hash < Pow16(HASH_DIGITS)
    ensures ParseHash(HashText(hash)) == Some(hash)
  {
    HexReads(hash, HASH_DIGITS);
    assert HashText(hash)[2..] == Hex(hash, HASH_DIGITS) && HashText(hash)[..2] == "0x";
  }

  /** Importing undoes printing, for all four line shapes. */
  lemma ImportUndoesPrint(e: Entry)
    requires ValidEntry(e)
    ensures ProcessLine(Print(e)) ==
            Some(Imported(e.account, e.reward, e.share, if e.share.Some? then Some(e.number) else None, e.hash))
  {
    PrintSplits(e);
    AddressReads(e.account);
    IntTextReads(e.reward);
    IntTextReads(e.number);
    if e.share.Some? {
      IntTextReads(e.share.value);
    }
    if e.hash.Some? {
      HashReads(e.hash.value);
    }
    ProcessShapes(AddressText(e.account), IntText(e.reward), ShareText(e), IntText(e.number), HashTextOf(e),
                  e.account, e.reward, e.share, e.number, e.hash);
  }

  // ----- reading a file back for sending -----

  function TrimLeft(s: string): string
  {
    if |s| > 0 && IsSpace(s[0]) then TrimLeft(s[1..]) else s
  }

  function TrimRight(s: string): string
  {
    if |s| > 0 && IsSpace(s[|s| - 1]) then TrimRight(s[..|s| - 1]) else s
  }

  predicate IsCommentedLine(line: string)
  {
    (|line| > 0 && line[0] == '#') || (|line| > 1 && line[..2] == "//")
  }

  /** A payment read back. */
  datatype Payee = Payee(account: nat, reward: int, share: Option<int>, number: nat)

  datatype Reading = Malformed | Ignored | Payable(payee: Payee)

  /** The low 64 bits of the absolute value. */
  function ToUint64(i: int): nat
  {
    Wrap(if i < 0 then -i else i)
  }

  /** One uncommented line of `GetAccountsAndRewardsFromFile`. */
  function ReadLine(line: string, excluded: set<nat>): Reading
  {
    ReadFields(Split(line), excluded)
  }

  function ReadFields(parts: seq<string>, excluded: set<nat>): Reading
  {
    if |parts| < 2 then Malformed
    else
      var account := ParseAddress(parts[0]);
      if account.None? then Malformed
      else if account.value in excluded then Ignored
      else
        var reward := SetString0(parts[1]);
        if reward.None? then Malformed
        else if reward.value <= 0 then Ignored
        else if |parts| < 4 then Payable(Payee(account.value, reward.value, None, 0))
        else
          var share, number := SetString0(parts[2]), SetString0(parts[3]);
          if share.None? || number.None? then Malformed
          else Payable(Payee(account.value, reward.value, share, ToUint64(number.value)))
  }

  lemma ReadShapes(a: string, r: string, s: string, n: string, h: string, account: nat, reward: int,
                   share: Option<int>, number: nat, hasHash: bool, excluded: set<nat>)
    requires ParseAddress(a) == Some(account) && SetString0(r) == Some(reward) && number < TWO_TO_THE_64
    requires share.Some? ==> SetString0(s) == share && SetString0(n) == Some(number)
    ensures ReadFields(Arrange(a, r, s, n, h, share.Some?, hasHash), excluded) ==
            if account in excluded || reward <= 0 then Ignored
            else Payable(Payee(account, reward, share, if share.Some? then number else 0))
  {
    var parts := Arrange(a, r, s, n, h, share.Some?, hasHash);
    assert parts[0] == a && parts[1] == r && (|parts| >= 4 <==> share.Some?);
    assert share.Some? ==> parts[2] == s && parts[3] == n;
    WrapSmall(number);
    ReadParts(parts, account, reward, share, number, excluded);
  }

  lemma ReadParts(parts: seq<string>, account: nat, reward: int, share: Option<int>, number: nat, excluded: set<nat>)
    requires |parts| >= 2 && ParseAddress(parts[0]) == Some(account) && SetString0(parts[1]) == Some(reward)
    requires |parts| >= 4 <==> share.Some?
    requires share.Some? ==> SetString0(parts[2]) == share && SetString0(parts[3]) == Some(number)
    requires Wrap(number) == number
    ensures ReadFields(parts, excluded) ==
            if account in excluded || reward <= 0 then Ignored
            else Payable(Payee(account, reward, share, if share.Some? then number else 0))
  {
  }

  /** Reading a printed line for sending recovers what is to be paid, share and number included; excluded accounts and
      lines without a positive reward are passed over. */
  lemma ReadUndoesPrint(e: Entry, excluded: set<nat>)
    requires ValidEntry(e)
    ensures ReadLine(Print(e), excluded) ==
            if e.account in excluded || e.reward <= 0 then Ignored
            else Payable(Payee(e.account, e.reward, e.share, if e.share.Some? then e.number else 0))
  {
    PrintSplits(e);
    AddressReads(e.account);
    IntTextReads(e.reward);
    IntTextReads(e.number);
    if e.share.Some? {
      IntTextReads(e.share.value);
    }
    ReadShapes(AddressText(e.account), IntText(e.reward), ShareText(e), IntText(e.number), HashTextOf(e),
               e.account, e.reward, e.share, e.number, e.hash.Some?, excluded);
  }

  /** The payees of a file: `None` as soon as one line is malformed. */
  function ReadLines(lines: seq<string>, excluded: set<nat>): Option<seq<Payee>>
  {
    if |lines| == 0 then Some([])
    else
      var before := ReadLines(lines[..|lines| - 1], excluded);
      var line := TrimRight(TrimLeft(lines[|lines| - 1]));
      if before.None? || IsCommentedLine(line) then before
      else
        match ReadLine(line, excluded)
        case Malformed => None
        case Ignored => before
        case Payable(payee) => Some(before.value + [payee])
  }

  /** When a line is malformed: too few fields, a wrong address, or, for an account that is not excluded, a reward that
      is no number, or a positive one followed by a share or a number that is none. */
  lemma MalformedIff(parts: seq<string>, excluded: set<nat>)
    ensures ReadFields(parts, excluded).Malformed? <==>
            || |parts| < 2 || ParseAddress(parts[0]).None?
            || (ParseAddress(parts[0]).value !in excluded &&
                (SetString0(parts[1]).None? ||
                 (SetString0(parts[1]).value > 0 && |parts| >= 4 &&
                  (SetString0(parts[2]).None? || SetString0(parts[3]).None?))))
  {
  }

  /** What a line asks to pay: a positive reward to an account that is not excluded, with the share and the low 64 bits
      of the number's absolute value when there are at least four fields. */
  lemma PayableIs(parts: seq<string>, excluded: set<nat>)
    requires ReadFields(parts, excluded).Payable?
    ensures
      var p := ReadFields(parts, excluded).payee;
      && |parts| >= 2 && ParseAddress(parts[0]) == Some(p.account) && p.account !in excluded
      && SetString0(parts[1]) == Some(p.reward) && p.reward > 0
      && (|parts| < 4 ==> p.share == None && p.number == 0)
      && (|parts| >= 4 ==> p.share.Some? && SetString0(parts[2]) == p.share && SetString0(parts[3]).Some? &&
                           var n := SetString0(parts[3]).value;
                           p.number == (if n < 0 then -n else n) % 0x1_0000_0000_0000_0000)
  {
  }

  /** A line whose text begins with `#` or `//`, after any blanks, is passed over. */
  lemma CommentIgnored(lines: seq<string>, blanks: string, text: string, excluded: set<nat>)
    requires forall c :: c in blanks ==> IsSpace(c)
    requires (|text| >= 1 && text[0] == '#') || (|text| >= 2 && text[0] == '/' && text[1] == '/')
    ensures ReadLines(lines + [blanks + text], excluded) == ReadLines(lines, excluded)
  {
    AppendInit(lines, blanks + text);
    TrimBlanks(blanks, text);
    TrimRightKeeps(text, if text[0] == '#' then 1 else 2);
  }

  lemma {:induction false} TrimBlanks(blanks: string, text: string)
    requires |text| > 0 && !IsSpace(text[0]) && forall c :: c in blanks ==> IsSpace(c)
    ensures TrimLeft(blanks + text) == text
  {
    if |blanks| == 0 {
      assert blanks + text == text;
    } else {
      assert blanks[0] in blanks;
      assert (blanks + text)[1..] == blanks[1..] + text;
      TrimBlanks(blanks[1..], text);
    }
  }

  lemma {:induction false} TrimRightKeeps(s: string, n: nat)
    requires 0 < n <= |s| && !IsSpace(s[n - 1])
    ensures |TrimRight(s)| >= n && TrimRight(s)[..n] == s[..n]
    decreases |s|
  {
    if IsSpace(s[|s| - 1]) {
      TrimRightKeeps(s[..|s| - 1], n);
      assert s[..|s| - 1][..n] == s[..n];
    }
  }

  lemma {:induction false} MalformedLasts(lines: seq<string>, i: nat, excluded: set<nat>)
    requires i <= |lines| && ReadLines(lines[..i], excluded).None?
    ensures ReadLines(lines, excluded).None?
  {
    if i == |lines| {
      assert lines[..i] == lines;
    } else {
      assert lines[..|lines| - 1][..i] == lines[..i];
      MalformedLasts(lines[..|lines| - 1], i, excluded);
    }
  }

  /** A commented line makes a title. */
  function TitleOf(line: string): string
  {
    var trimmed := TrimRight(TrimLeft(line));
    if IsCommentedLine(trimmed) then trimmed else ""
  }

  lemma {:induction false} TrimEnd(text: string, blanks: string)
    requires |text| > 0 && !IsSpace(text[|text| - 1]) && forall c :: c in blanks ==> IsSpace(c)
    ensures TrimRight(text + blanks) == text
  {
    if |blanks| == 0 {
      assert text + blanks == text;
    } else {
      var n := |blanks| - 1;
      assert blanks[n] in blanks;
      assert (text + blanks)[..|text| + n] == text + blanks[..n];
      TrimEnd(text, blanks[..n]);
    }
  }

  /** The title is the comment without the blanks around it; a first line that is no comment makes none. */
  lemma TitleIs(before: string, text: string, after: string)
    requires |text| > 0 && !IsSpace(text[0]) && !IsSpace(text[|text| - 1])
    requires forall c :: c in before ==> IsSpace(c)
    requires forall c :: c in after ==> IsSpace(c)
    ensures TitleOf(before + (text + after)) ==
            if text[0] == '#' || (|text| >= 2 && text[0] == '/' && text[1] == '/') then text else ""
  {
    TrimBlanks(before, text + after);
    TrimEnd(text, after);
  }

  /** `GetAccountsAndRewardsFromFile`: also returns a commented first line as the title. */
  method GetAccountsAndRewardsFromFile(lines: seq<string>, excluded: set<nat>)
    returns (accountStats: Option<seq<Payee>>, titleLine: string)
    ensures accountStats == ReadLines(lines, excluded)
    ensures accountStats.Some? ==>
              titleLine == if |lines| > 0 then TitleOf(lines[0]) else ""
  {
    var stats: seq<Payee> := [];
    titleLine := "";
    var isFirstLine := true;
    for i := 0 to |lines|
      invariant Some(stats) == ReadLines(lines[..i], excluded)
      invariant isFirstLine <==> i == 0
      invariant titleLine == if i > 0 then TitleOf(lines[0]) else ""
    {
      assert lines[..i + 1][..i] == lines[..i];
      var line := TrimRight(TrimLeft(lines[i]));
      if IsCommentedLine(line) {
        if isFirstLine {
          titleLine := line;
        }
        isFirstLine := false;
        continue;
      }
      isFirstLine := false;
      match ReadLine(line, excluded) {
        case Malformed =>
          MalformedLasts(lines, i + 1, excluded);
          return None, "";
        case Ignored =>
        case Payable(payee) =>
          stats := stats + [payee];
      }
    }
    assert lines[..|lines|] == lines;
    accountStats := Some(stats);
  }

  function PrintAll(es: seq<Entry>): seq<string>
  {
    if |es| == 0 then [] else PrintAll(es[..|es| - 1]) + [Print(es[|es| - 1])]
  }

  /** The payment an entry asks for, if any. */
  function PayeeOf(e: Entry, excluded: set<nat>): seq<Payee>
  {
    if e.account in excluded || e.reward <= 0 then []
    else [Payee(e.account, e.reward, e.share, if e.share.Some? then e.number else 0)]
  }

  /** The entries that are to be paid, in order. */
  function ToPay(es: seq<Entry>, excluded: set<nat>): seq<Payee>
  {
    if |es| == 0 then [] else ToPay(es[..|es| - 1], excluded) + PayeeOf(es[|es| - 1], excluded)
  }

  lemma PlainText(s: string)
    requires |s| > 0 && s[0] == '0' && forall c :: c in s ==> !IsSpace(c)
    ensures TrimRight(TrimLeft(s)) == s && !IsCommentedLine(s)
  {
    assert s[0] in s && s[|s| - 1] in s;
  }

  lemma JoinPlain(parts: seq<string>)
    requires |parts| > 0 && forall i :: 0 <= i < |parts| ==> IsField(parts[i])
    requires |parts[0]| > 0 && parts[0][0] == '0'
    ensures TrimRight(TrimLeft(Join(parts))) == Join(parts) && !IsCommentedLine(Join(parts))
  {
    JoinStarts(parts);
    assert Join(parts)[0] == Join(parts)[..|parts[0]|][0];
    PlainText(Join(parts));
  }

  lemma PrintIsPlain(e: Entry)
    requires ValidEntry(e)
    ensures TrimRight(TrimLeft(Print(e))) == Print(e) && !IsCommentedLine(Print(e))
  {
    PrintSplits(e);
    JoinPlain(Fields(e));
  }

  lemma ReadAppended(lines: seq<string>, text: string, excluded: set<nat>, before: seq<Payee>)
    requires TrimRight(TrimLeft(text)) == text && !IsCommentedLine(text)
    requires ReadLines(lines, excluded) == Some(before)
    ensures ReadLine(text, excluded).Ignored? ==> ReadLines(lines + [text], excluded) == Some(before)
    ensures ReadLine(text, excluded).Payable? ==>
              ReadLines(lines + [text], excluded) == Some(before + [ReadLine(text, excluded).payee])
  {
    assert (lines + [text])[..|lines|] == lines;
  }

  lemma TitleIgnored(title: string, excluded: set<nat>)
    requires IsCommentedLine(TrimRight(TrimLeft(title)))
    ensures ReadLines([title], excluded) == Some([])
  {
    assert [title][..0] == [];
  }

  lemma ReadPrinted(lines: seq<string>, e: Entry, excluded: set<nat>, before: seq<Payee>)
    requires ValidEntry(e) && ReadLines(lines, excluded) == Some(before)
    ensures ReadLines(lines + [Print(e)], excluded) == Some(before + PayeeOf(e, excluded))
  {
    PrintIsPlain(e);
    ReadUndoesPrint(e, excluded);
    ReadAppended(lines, Print(e), excluded, before);
    assert before + [] == before;
  }

  lemma Reassociate(a: seq<string>, b: seq<string>, c: seq<string>)
    ensures a + (b + c) == a + b + c
  {
  }

  /** File round trip: a whole output file, title line and all, reads back as exactly the payable entries, in order. */
  lemma {:induction false} FileRoundTrip(title: string, es: seq<Entry>, excluded: set<nat>)
    requires IsCommentedLine(TrimRight(TrimLeft(title)))
    requires forall i :: 0 <= i < |es| ==> ValidEntry(es[i])
    ensures ReadLines([title] + PrintAll(es), excluded) == Some(ToPay(es, excluded))
  {
    if |es| == 0 {
      TitleIgnored(title, excluded);
      assert [title] + PrintAll(es) == [title];
    } else {
      var n := |es| - 1;
      FileRoundTrip(title, es[..n], excluded);
      ReadPrinted([title] + PrintAll(es[..n]), es[n], excluded, ToPay(es[..n], excluded));
      Reassociate([title], PrintAll(es[..n]), [Print(es[n])]);
    }
  }
}
