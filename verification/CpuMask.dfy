/** CPU masks: the search for the last CPU, the hexadecimal printer and the parser. */
module CpuMask {

  const CPU_SETSIZE: nat := 1024

  /** ODP_CONFIG_MAX_THREADS and ODP_CPUMASK_STR_SIZE. */
  const MAX_THREADS: nat := 128
  const STR_SIZE: nat := (MAX_THREADS + 3) / 4 + 3

  /** cpu_set_t: one bit for each CPU number. */
  type Mask = m: seq<bool> | |m| == CPU_SETSIZE witness seq(CPU_SETSIZE, _ => false)

  // ---- Nibbles and hexadecimal digits

  function NibbleOf(b0: bool, b1: bool, b2: bool, b3: bool): (v: nat)
    ensures v < 16
  {
    (if b0 then 1 else 0) + (if b1 then 2 else 0) + (if b2 then 4 else 0) + (if b3 then 8 else 0)
  }

  /** value & (1 << idx). */
  function BitOf(value: nat, idx: nat): bool
    requires idx < 4
  {
    var shifted := if idx == 0 then value else if idx == 1 then value / 2
                   else if idx == 2 then value / 4 else value / 8;
    shifted % 2 == 1
  }

  function Nibble(mask: Mask, j: nat): (v: nat)
    requires j < CPU_SETSIZE / 4
    ensures v < 16
  {
    NibbleOf(mask[4 * j], mask[4 * j + 1], mask[4 * j + 2], mask[4 * j + 3])
  }

  function Digit(value: nat): (c: char)
    requires value < 16
  {
    if value < 0xA then '0' + value as char else 'A' + (value - 0xA) as char
  }

  /** The value of a hexadecimal digit in either case, or -1. */
  function HexValue(c: char): (v: int)
    ensures -1 <= v < 16
  {
    if '0' <= c <= '9' then (c - '0') as int
    else if 'A' <= c <= 'F' then (c - 'A') as int + 10
    else if 'a' <= c <= 'f' then (c - 'a') as int + 10
    else -1
  }

  lemma DigitRoundTrip(value: nat)
    requires value < 16
    ensures HexValue(Digit(value)) == value
  {}

  /** A digit in upper case: what printing its value gives. */
  function Upper(c: char): char
    requires HexValue(c) >= 0
  {
    if 'a' <= c <= 'f' then 'A' + (c - 'a') else c
  }

  lemma DigitOfValue(c: char)
    requires HexValue(c) >= 0
    ensures Digit(HexValue(c)) == Upper(c)
  {}

  lemma BitsOfNibble(b0: bool, b1: bool, b2: bool, b3: bool)
    ensures var v := NibbleOf(b0, b1, b2, b3);
            BitOf(v, 0) == b0 && BitOf(v, 1) == b1 && BitOf(v, 2) == b2 && BitOf(v, 3) == b3
  {}

  lemma NibbleOfBits(v: nat)
    requires v < 16
    ensures NibbleOf(BitOf(v, 0), BitOf(v, 1), BitOf(v, 2), BitOf(v, 3)) == v
  {}

  const UPPER := "0123456789ABCDEF"
  const LOWER := "0123456789abcdef"

  /** The digits are the usual ones. */
  lemma DigitsAreHex(c: char, v: nat)
    requires v < 16
    ensures Digit(v) == UPPER[v]
    ensures HexValue(c) == v <==> c == UPPER[v] || c == LOWER[v]
  {}

  // ---- The last CPU of a mask

  function LastBelow(mask: Mask, n: nat): (cpu: int)
    requires n <= CPU_SETSIZE
    ensures -1 <= cpu < n && (cpu >= 0 ==> mask[cpu])
    ensures forall k | cpu < k < n :: !mask[k]
  {
    if n == 0 then -1 else if mask[n - 1] then n - 1 else LastBelow(mask, n - 1)
  }

  /** The highest CPU in the mask, or -1. */
  function LastOf(mask: Mask): (cpu: int)
    ensures -1 <= cpu < CPU_SETSIZE && (cpu >= 0 ==> mask[cpu])
    ensures forall k | cpu < k < CPU_SETSIZE :: !mask[k]
  {
    LastBelow(mask, |mask|)
  }

  method Last(mask: Mask) returns (cpu: int)
    ensures -1 <= cpu < CPU_SETSIZE && (cpu >= 0 ==> mask[cpu])
    ensures forall k | cpu < k < CPU_SETSIZE :: !mask[k]
    ensures cpu == LastOf(mask)
  {
    cpu := CPU_SETSIZE - 1;
    while cpu >= 0
      invariant -1 <= cpu < CPU_SETSIZE
      invariant LastOf(mask) == LastBelow(mask, cpu + 1)
    {
      if mask[cpu] {
        return;
      }
      cpu := cpu - 1;
    }
  }

  // ---- Printing

  /** The n low nibbles, most significant first. */
  function Digits(mask: Mask, n: nat): (s: string)
    requires n <= CPU_SETSIZE / 4
  {
    seq(n, i requires 0 <= i < n => Digit(Nibble(mask, n - 1 - i)))
  }

  function Printed(mask: Mask): string {
    var cpu := LastOf(mask);
    if cpu < 0 then "0x0" else "0x" + Digits(mask, cpu / 4 + 1)
  }

  /** The bits of nibble j from position b upward, the lower ones cleared. */
  function Upward(mask: Mask, j: nat, b: nat): nat
    requires j < CPU_SETSIZE / 4 && b <= 4
  {
    NibbleOf(b <= 0 && mask[4 * j], b <= 1 && mask[4 * j + 1], b <= 2 && mask[4 * j + 2], b <= 3 && mask[4 * j + 3])
  }

  /** Writes "0x" and the digits through a moving index, one bit at a time from the last CPU down. */
  method WriteDigits(mask: Mask, last: nat, str: array<char>) returns (p: nat)
    requires last < CPU_SETSIZE && str.Length >= 3 + (last / 4 + 1)
    requires forall k | last < k < CPU_SETSIZE :: !mask[k]
    modifies str
    ensures p == 2 + (last / 4 + 1)
    ensures str[..p] == "0x" + Digits(mask, last / 4 + 1)
    ensures forall i | p <= i < str.Length :: str[i] == old(str[i])
  {
    ghost var top := last / 4;
    p := 0;
    str[p] := '0';
    p := p + 1;
    str[p] := 'x';
    p := p + 1;
    var value := 0;
    var cpu := last;
    while true
      invariant 0 <= cpu <= last && p == 2 + (top - cpu / 4)
      invariant value == Upward(mask, cpu / 4, cpu % 4 + 1)
      invariant str[0] == '0' && str[1] == 'x'
      invariant forall i | 2 <= i < p :: str[i] == Digits(mask, top + 1)[i - 2]
      invariant forall i | p <= i < str.Length && i >= 2 :: str[i] == old(str[i])
      decreases cpu
    {
      if mask[cpu] {
        value := value + (if cpu % 4 == 0 then 1 else if cpu % 4 == 1 then 2 else if cpu % 4 == 2 then 4 else 8);
      }
      if cpu % 4 == 0 {
        assert value == Nibble(mask, cpu / 4);
        str[p] := Digit(value);
        p := p + 1;
        value := 0;
      }
      if cpu == 0 {
        break;
      }
      cpu := cpu - 1;
    }
    assert str[..p] == "0x" + Digits(mask, top + 1);
  }

  /**
   odp_cpumask_to_str: writes the printed form and its terminator and returns how many characters that is, or
   returns -1 and writes nothing when they do not fit.
   */
  method ToStr(mask: Mask, str: array<char>, len: int) returns (ret: int)
    requires len <= str.Length
    modifies str
    ensures len < |Printed(mask)| + 1 ==> ret == -1 && str[..] == old(str[..])
    ensures len >= |Printed(mask)| + 1 ==>
      && ret == |Printed(mask)| + 1
      && str[..ret] == Printed(mask) + ['\0']
      && str[ret..] == old(str[ret..])
  {
    var cpu := Last(mask);
    if len < 4 {
      return -1;
    }
    if cpu < 0 {
      str[0], str[1], str[2], str[3] := '0', 'x', '0', '\0';
      return 4;
    }
    var nibbles := cpu / 4 + 1;
    if len < 3 + nibbles {
      return -1;
    }
    var p := WriteDigits(mask, cpu, str);
    str[p] := '\0';
    assert str[..p] == Printed(mask);
    return p + 1;
  }

  /**
   The buffer size the header recommends is sized for the configured 128 threads, not for the mask: it suffices
   exactly for the masks without a higher CPU.
   */
  lemma RecommendedSizeSuffices(mask: Mask)
    ensures |Printed(mask)| + 1 <= STR_SIZE <==> LastOf(mask) < MAX_THREADS
  {}

  // ---- Parsing

  /** Without the two characters of a prefix, which is recognised by its second character alone. */
  function Body(str: string): string {
    if |str| >= 2 && (str[1] == 'x' || str[1] == 'X') then str[2..] else str
  }

  /** The digit j places from the right. */
  function FromRight(body: string, j: nat): char
    requires j < |body|
  {
    body[|body| - 1 - j]
  }

  /** The digits the parser looks at: at most as many as the mask has nibbles, from the least significant end. */
  predicate Readable(body: string) {
    forall j: nat | j < |body| && j < CPU_SETSIZE / 4 :: HexValue(FromRight(body, j)) >= 0
  }

  predicate ParsedBit(body: string, cpu: nat)
    requires Readable(body) && cpu < CPU_SETSIZE
  {
    cpu / 4 < |body| && BitOf(HexValue(FromRight(body, cpu / 4)), cpu % 4)
  }

  /** Bit `cpu` comes from the digit cpu / 4 places from the right; an unreadable string gives the empty mask. */
  function Parsed(str: string): Mask {
    ParsedBody(Body(str))
  }

  function ParsedBody(body: string): (mask: Mask) {
    seq(CPU_SETSIZE, cpu requires 0 <= cpu < CPU_SETSIZE => Readable(body) && ParsedBit(body, cpu))
  }

  /** odp_cpumask_from_str: the digits behind a prefix, if there is one, give the mask. */
  method FromStr(strIn: string) returns (mask: Mask)
    ensures mask == Parsed(strIn)
    ensures mask == ParsedBody(if |strIn| >= 2 && (strIn[1] == 'x' || strIn[1] == 'X') then strIn[2..] else strIn)
  {
    var str := strIn;
    var len := |str|;
    mask := seq(CPU_SETSIZE, _ => false);
    var cpuset := mask;
    if len >= 2 && (str[1] == 'x' || str[1] == 'X') {
      str := str[2..];
      len := len - 2;
    }
    if len == 0 {
      return;
    }
    ghost var body := Body(strIn);
    var p, cpu := len - 1, 0;
    while len > 0 && cpu < CPU_SETSIZE
      invariant str == body && p == len - 1 && 0 <= len <= |body| && cpu == 4 * (|body| - len) <= CPU_SETSIZE
      invariant forall j: nat | j < |body| - len :: HexValue(FromRight(body, j)) >= 0
      invariant forall k | 0 <= k < CPU_SETSIZE ::
        cpuset[k] == (k < cpu && BitOf(HexValue(FromRight(body, k / 4)), k % 4))
    {
      var value := HexValue(str[p]);
      if value < 0 {
        assert FromRight(body, |body| - len) == str[p];
        return;
      }
      cpuset := SetNibble(cpuset, cpu, value);
      cpu := cpu + 4;
      p, len := p - 1, len - 1;
    }
    assert Readable(body);
    assert forall k | 0 <= k < CPU_SETSIZE :: cpuset[k] == ParsedBit(body, k);
    mask := cpuset;
  }

  /** The inner loop: sets the bits of one digit. */
  method SetNibble(cpuset: Mask, first: nat, value: nat) returns (result: Mask)
    requires first + 4 <= CPU_SETSIZE
    ensures forall k | 0 <= k < CPU_SETSIZE ::
      result[k] == (cpuset[k] || (first <= k < first + 4 && BitOf(value, k - first)))
  {
    result := cpuset;
    var idx, cpu := 0, first;
    while idx < 4
      invariant 0 <= idx <= 4 && cpu == first + idx
      invariant forall k | 0 <= k < CPU_SETSIZE ::
        result[k] == (cpuset[k] || (first <= k < cpu && BitOf(value, k - first)))
    {
      if BitOf(value, idx) {
        result := result[cpu := true];
      }
      idx, cpu := idx + 1, cpu + 1;
    }
  }

  // ---- The round trips

  /** The digits of a printed mask are readable, and digit j from the right is nibble j. */
  lemma PrintedDigits(mask: Mask, n: nat, j: nat)
    requires j < n <= CPU_SETSIZE / 4
    ensures HexValue(FromRight(Digits(mask, n), j)) == Nibble(mask, j)
  {
    DigitRoundTrip(Nibble(mask, j));
  }

  lemma BitOfNibble(mask: Mask, cpu: nat)
    requires cpu < CPU_SETSIZE
    ensures BitOf(Nibble(mask, cpu / 4), cpu % 4) == mask[cpu]
  {
    var j := cpu / 4;
    assert cpu == 4 * j + cpu % 4;
    BitsOfNibble(mask[4 * j], mask[4 * j + 1], mask[4 * j + 2], mask[4 * j + 3]);
  }

  /** Parsing what was printed gives back the mask. */
  lemma ParseAfterPrint(mask: Mask)
    ensures Parsed(Printed(mask)) == mask
  {
    var last := LastOf(mask);
    var str := Printed(mask);
    if last < 0 {
      assert Body(str) == "0";
    } else {
      var n := last / 4 + 1;
      var body := Digits(mask, n);
      assert Body(str) == body;
      forall j: nat | j < n ensures HexValue(FromRight(body, j)) == Nibble(mask, j) {
        PrintedDigits(mask, n, j);
      }
      assert Readable(body);
      forall cpu: nat | cpu < CPU_SETSIZE ensures ParsedBit(body, cpu) == mask[cpu] {
        BitOfNibble(mask, cpu);
      }
    }
  }

  // ---- The number that a mask and a string stand for

  /** The sum of 2^cpu over the CPUs of a mask. */
  function ValueOf(bits: seq<bool>): nat {
    if bits == [] then 0 else (if bits[0] then 1 else 0) + 2 * ValueOf(bits[1..])
  }

  /** A string of hexadecimal digits as a number. */
  function Number(body: string): nat
    requires forall i | 0 <= i < |body| :: HexValue(body[i]) >= 0
  {
    if body == "" then 0 else 16 * Number(body[..|body| - 1]) + HexValue(body[|body| - 1])
  }

  lemma ValueByNibble(bits: seq<bool>)
    requires |bits| >= 4
    ensures ValueOf(bits) == NibbleOf(bits[0], bits[1], bits[2], bits[3]) + 16 * ValueOf(bits[4..])
  {
    assert ValueOf(bits[1..]) == (if bits[1] then 1 else 0) + 2 * ValueOf(bits[2..]) by {
      assert bits[1..][1..] == bits[2..];
    }
    assert ValueOf(bits[2..]) == (if bits[2] then 1 else 0) + 2 * ValueOf(bits[3..]) by {
      assert bits[2..][1..] == bits[3..];
    }
    assert ValueOf(bits[3..]) == (if bits[3] then 1 else 0) + 2 * ValueOf(bits[4..]) by {
      assert bits[3..][1..] == bits[4..];
    }
  }

  /** The first n nibbles of what the parser sets. */
  function BitsOf(body: string, n: nat): seq<bool>
    requires Readable(body) && n <= CPU_SETSIZE / 4
  {
    seq(4 * n, cpu requires 0 <= cpu < 4 * n => ParsedBit(body, cpu))
  }

  lemma {:induction false} BitsNumber(body: string, n: nat)
    requires |body| <= n <= CPU_SETSIZE / 4 && forall i | 0 <= i < |body| :: HexValue(body[i]) >= 0
    ensures Readable(body) && ValueOf(BitsOf(body, n)) == Number(body)
  {
    assert Readable(body);
    if n > 0 {
      var bits := BitsOf(body, n);
      ValueByNibble(bits);
      if body == "" {
        BitsNumber(body, n - 1);
        assert bits[4..] == BitsOf(body, n - 1);
      } else {
        var rest := body[..|body| - 1];
        BitsNumber(rest, n - 1);
        ShiftedBits(body, rest, n);
        NibbleOfBits(HexValue(body[|body| - 1]));
      }
    }
  }

  lemma ShiftedBits(body: string, rest: string, n: nat)
    requires body != "" && rest == body[..|body| - 1] && 0 < n <= CPU_SETSIZE / 4 && Readable(body) && Readable(rest)
    ensures BitsOf(body, n)[4..] == BitsOf(rest, n - 1)
  {
    forall cpu: nat | cpu < 4 * (n - 1) ensures ParsedBit(body, cpu + 4) == ParsedBit(rest, cpu) {
      assert (cpu + 4) / 4 == cpu / 4 + 1 && (cpu + 4) % 4 == cpu % 4;
      if cpu / 4 < |rest| {
        assert FromRight(body, cpu / 4 + 1) == FromRight(rest, cpu / 4);
      }
    }
  }

  /** The mask parsed from hexadecimal digits is the number they denote, in binary. */
  lemma ParsedNumber(str: string)
    requires IsHex(Kept(Body(str)))
    ensures ValueOf(Parsed(str)) == Number(Kept(Body(str)))
  {
    var body := Kept(Body(str));
    KeptDigits(Body(str));
    BitsNumber(body, CPU_SETSIZE / 4);
    assert BitsOf(body, CPU_SETSIZE / 4) == ParsedBody(body);
  }

  /** The printed digits denote the number that the mask is in binary. */
  lemma PrintedNumber(mask: Mask)
    ensures IsHex(Body(Printed(mask))) && Number(Body(Printed(mask))) == ValueOf(mask)
  {
    ParseAfterPrint(mask);
    PrintedIsHex(mask);
    ParsedNumber(Printed(mask));
  }

  lemma PrintedIsHex(mask: Mask)
    ensures IsHex(Body(Printed(mask)))
  {
    var last := LastOf(mask);
    if last < 0 {
      assert Body(Printed(mask)) == "0";
    } else {
      var n := last / 4 + 1;
      assert Body(Printed(mask)) == Digits(mask, n);
      forall i | 0 <= i < n ensures HexValue(Digits(mask, n)[i]) >= 0 {
        DigitRoundTrip(Nibble(mask, n - 1 - i));
      }
    }
  }

  /** Without leading zeros, but keeping one digit. */
  function StripZeros(body: string): (r: string)
    ensures |r| <= |body| && r == body[|body| - |r|..]
    ensures forall i | 0 <= i < |body| - |r| :: HexValue(body[i]) == 0
    ensures |r| > 1 ==> HexValue(r[0]) != 0
    ensures |body| > 0 ==> |r| > 0
  {
    if |body| > 1 && HexValue(body[0]) == 0 then StripZeros(body[1..]) else body
  }

  /** The printed form of the number a hexadecimal string denotes. */
  function Canonical(body: string): string
    requires forall i | 0 <= i < |body| :: HexValue(body[i]) >= 0
  {
    "0x" + UpperCase(StripZeros(body))
  }

  predicate IsHex(body: string) {
    1 <= |body| <= CPU_SETSIZE / 4 && forall i | 0 <= i < |body| :: HexValue(body[i]) >= 0
  }

  lemma ParsedBitAt(body: string, j: nat, k: nat)
    requires Readable(body) && j < CPU_SETSIZE / 4 && k < 4
    ensures ParsedBit(body, 4 * j + k) <==> j < |body| && BitOf(HexValue(FromRight(body, j)), k)
  {
    assert (4 * j + k) / 4 == j && (4 * j + k) % 4 == k;
  }

  lemma NibbleOfParsed(body: string, j: nat)
    requires IsHex(body) && j < CPU_SETSIZE / 4
    ensures Nibble(ParsedBody(body), j) == if j < |body| then HexValue(FromRight(body, j)) else 0
  {
    assert Readable(body);
    var mask := ParsedBody(body);
    var v := if j < |body| then HexValue(FromRight(body, j)) else 0;
    forall k: nat | k < 4 ensures mask[4 * j + k] == BitOf(v, k) {
      ParsedBitAt(body, j, k);
    }
    assert mask[4 * j + 0] == BitOf(v, 0);
    NibbleOfBits(v);
  }

  lemma NibbleNonZero(mask: Mask, j: nat) returns (cpu: nat)
    requires j < CPU_SETSIZE / 4 && Nibble(mask, j) != 0
    ensures cpu < CPU_SETSIZE && cpu / 4 == j && mask[cpu]
  {
    cpu := if mask[4 * j] then 4 * j else if mask[4 * j + 1] then 4 * j + 1
           else if mask[4 * j + 2] then 4 * j + 2 else 4 * j + 3;
  }

  /** The nibble of the last CPU is the highest that is not zero. */
  lemma LastNibble(mask: Mask, n: nat)
    requires 1 <= n <= CPU_SETSIZE / 4
    requires forall j: nat | n <= j < CPU_SETSIZE / 4 :: Nibble(mask, j) == 0
    requires n > 1 ==> Nibble(mask, n - 1) != 0
    ensures if LastOf(mask) < 0 then n == 1 && Nibble(mask, 0) == 0 else LastOf(mask) / 4 + 1 == n
  {
    var last := LastOf(mask);
    if last >= 0 {
      BitOfNibble(mask, last);
      assert BitOf(0, last % 4) == false;
      assert last / 4 < n;
    }
    if Nibble(mask, n - 1) != 0 {
      var cpu := NibbleNonZero(mask, n - 1);
    }
  }

  /** The last CPU lies in the first digit that is not zero. */
  lemma LastOfParsed(body: string)
    requires IsHex(body)
    ensures var last, r := LastOf(ParsedBody(body)), StripZeros(body);
            if last < 0 then |r| == 1 && HexValue(r[0]) == 0 else last / 4 + 1 == |r|
  {
    var mask := ParsedBody(body);
    var r := StripZeros(body);
    SuffixDigit(body, r, 0, |r| - 1);
    NibbleOfParsed(body, |r| - 1);
    forall j: nat | |r| <= j < CPU_SETSIZE / 4 ensures Nibble(mask, j) == 0 {
      NibbleOfParsed(body, j);
    }
    LastNibble(mask, |r|);
  }

  lemma SuffixDigit(body: string, r: string, i: nat, j: nat)
    requires |r| <= |body| && r == body[|body| - |r|..] && i < |r| && j == |r| - 1 - i
    ensures j < |body| && r[i] == FromRight(body, j)
  {}

  /** Digit i from the left of the printed string, as the nibble it stands for. */
  lemma DigitOfParsed(body: string, j: nat, c: char)
    requires IsHex(body) && j < |body| && c == FromRight(body, j)
    ensures HexValue(c) >= 0 && Digit(Nibble(ParsedBody(body), j)) == Upper(c)
  {
    NibbleOfParsed(body, j);
    DigitOfValue(c);
  }

  function UpperCase(r: string): string
    requires forall i | 0 <= i < |r| :: HexValue(r[i]) >= 0
  {
    seq(|r|, i requires 0 <= i < |r| => Upper(r[i]))
  }

  lemma PrintedFrom(mask: Mask, r: string)
    requires 1 <= |r| <= CPU_SETSIZE / 4 && forall i | 0 <= i < |r| :: HexValue(r[i]) >= 0
    requires forall i | 0 <= i < |r| :: Digit(Nibble(mask, |r| - 1 - i)) == Upper(r[i])
    requires if LastOf(mask) < 0 then |r| == 1 && HexValue(r[0]) == 0 else LastOf(mask) / 4 + 1 == |r|
    ensures Printed(mask) == "0x" + UpperCase(r)
  {
    if LastOf(mask) < 0 {
      assert UpperCase(r) == "0";
    } else {
      assert Digits(mask, |r|) == UpperCase(r);
    }
  }

  /** The digits of a mask that prints as `body` digit by digit, some leading ones stripped. */
  lemma DigitsStripped(mask: Mask, body: string, r: string)
    requires IsHex(body) && 1 <= |r| <= |body| && r == body[|body| - |r|..]
    requires forall j: nat | j < |body| :: Digit(Nibble(mask, j)) == Upper(FromRight(body, j))
    ensures 1 <= |r| <= CPU_SETSIZE / 4 && forall i | 0 <= i < |r| :: HexValue(r[i]) >= 0
    ensures forall i | 0 <= i < |r| :: Digit(Nibble(mask, |r| - 1 - i)) == Upper(r[i])
  {
    forall i | 0 <= i < |r| ensures HexValue(r[i]) >= 0 && Digit(Nibble(mask, |r| - 1 - i)) == Upper(r[i]) {
      var j := |r| - 1 - i;
      SuffixDigit(body, r, i, j);
    }
  }

  /** The digits the parser takes: it stops when the mask is full, whatever stands before. */
  function Kept(body: string): string {
    if |body| > CPU_SETSIZE / 4 then body[|body| - CPU_SETSIZE / 4..] else body
  }

  lemma KeptDigits(body: string)
    ensures ParsedBody(body) == ParsedBody(Kept(body))
  {
    var kept := Kept(body);
    forall j: nat | j < |body| && j < CPU_SETSIZE / 4 ensures j < |kept| && FromRight(body, j) == FromRight(kept, j) {}
    assert Readable(body) <==> Readable(kept);
  }

  /** Printing what was parsed from hexadecimal digits gives the canonical form of the digits taken. */
  lemma PrintAfterParse(str: string)
    requires IsHex(Kept(Body(str)))
    ensures Printed(Parsed(str)) == Canonical(Kept(Body(str)))
  {
    var body := Kept(Body(str));
    KeptDigits(Body(str));
    PrintAfterParseBody(body, StripZeros(body));
  }

  lemma PrintAfterParseBody(body: string, r: string)
    requires IsHex(body) && r == StripZeros(body)
    ensures Printed(ParsedBody(body)) == Canonical(body)
  {
    var mask := ParsedBody(body);
    LastOfParsed(body);
    forall j: nat | j < |body| ensures Digit(Nibble(mask, j)) == Upper(FromRight(body, j)) {
      DigitOfParsed(body, j, FromRight(body, j));
    }
    DigitsStripped(mask, body, r);
    PrintedFrom(mask, r);
  }
}
