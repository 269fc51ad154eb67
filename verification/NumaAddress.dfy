/** Decimal printing and `std::stoi`, and the `serverId:numaId` address format built on them. */
module NumaAddress {
  import opened Wrappers

  predicate IsDigit(c: char) { '0' <= c <= '9' }

  predicate IsSpace(c: char) { c == ' ' || 9 <= c as int <= 13 }

  function DigitChar(d: nat): (c: char)
    requires d < 10
    ensures IsDigit(c) && DigitValue(c) == d
  {
    ('0' as int + d) as char
  }

  function DigitValue(c: char): (d: nat)
    requires IsDigit(c)
    ensures d < 10
  {
    c as int - '0' as int
  }

  /** `std::to_string` of an unsigned value. */
  function Decimal(n: nat): (s: string)
    ensures s != [] && forall c :: c in s ==> IsDigit(c)
  {
    if n < 10 then [DigitChar(n)] else Decimal(n / 10) + [DigitChar(n % 10)]
  }

  function Value(s: string): nat
    requires forall c :: c in s ==> IsDigit(c)
  {
    if s == [] then 0 else 10 * Value(s[..|s| - 1]) + DigitValue(s[|s| - 1])
  }

  lemma {:induction false} ValueOfDecimal(n: nat)
    ensures Value(Decimal(n)) == n
  {
    if n >= 10 {
      ValueOfDecimal(n / 10);
      assert Decimal(n)[..|Decimal(n)| - 1] == Decimal(n / 10);
    } else {
      assert Decimal(n)[..0] == [];
    }
  }

  /** The digits themselves: the last is the remainder by ten, and the rest prints the quotient. */
  lemma DigitsOfDecimal(n: nat)
    ensures var s := Decimal(n);
            && s[|s| - 1] == "0123456789"[n % 10]
            && s[..|s| - 1] == if n < 10 then "" else Decimal(n / 10)
  {
  }

  lemma DecimalInjective(m: nat, n: nat)
    requires Decimal(m) == Decimal(n)
    ensures m == n
  {
    ValueOfDecimal(m);
    ValueOfDecimal(n);
  }

  /** `std::to_string` of a signed value. */
  function Signed(x: int): (s: string)
    ensures s != [] && ':' !in s && !IsSpace(s[0])
  {
    if x < 0 then ['-'] + Decimal(-x)
    else
      var d := Decimal(x);
      assert d[0] in d;
      d
  }

  // -------------------------------------------------------------------- stoi

  datatype StoiError = InvalidArgument | OutOfRange

  function SkipSpaces(s: string): string {
    if s != [] && IsSpace(s[0]) then SkipSpaces(s[1..]) else s
  }

  function LeadingDigits(s: string): (d: string)
    ensures forall c :: c in d ==> IsDigit(c)
  {
    if s != [] && IsDigit(s[0]) then [s[0]] + LeadingDigits(s[1..]) else []
  }

  function Stoi(s: string): Result<int, StoiError> {
    var t := SkipSpaces(s);
    var negative := t != [] && t[0] == '-';
    var u := if t != [] && (t[0] == '-' || t[0] == '+') then t[1..] else t;
    var digits := LeadingDigits(u);
    if digits == [] then Err(InvalidArgument)
    else
      var v: int := if negative then -(Value(digits) as int) else Value(digits);
      if -0x8000_0000 <= v < 0x8000_0000 then Ok(v) else Err(OutOfRange)
  }

  lemma {:induction false} DigitsLeadThemselves(s: string)
    requires forall c :: c in s ==> IsDigit(c)
    ensures LeadingDigits(s) == s
  {
    if s == [] {
    } else {
      DigitsLeadThemselves(s[1..]);
    }
  }

  /** `stoi` reads back what `to_string` printed exactly for the values of a 32-bit int. */
  lemma StoiReadsSigned(x: int)
    ensures Stoi(Signed(x)) == if -0x8000_0000 <= x < 0x8000_0000 then Ok(x) else Err(OutOfRange)
  {
    var n := if x < 0 then -x else x;
    DigitsLeadThemselves(Decimal(n));
    ValueOfDecimal(n);
    if x < 0 {
      assert Signed(x)[1..] == Decimal(n);
    } else {
      assert IsDigit(Decimal(n)[0]);
    }
  }

  lemma {:induction false} SpacesAreSkipped(spaces: string, s: string)
    requires forall c :: c in spaces ==> IsSpace(c)
    requires s != [] && !IsSpace(s[0])
    ensures SkipSpaces(spaces + s) == s
  {
    if spaces == [] {
      assert spaces + s == s;
    } else {
      assert (spaces + s)[1..] == spaces[1..] + s;
      SpacesAreSkipped(spaces[1..], s);
    }
  }

  lemma {:induction false} DigitsStop(digits: string, rest: string)
    requires forall c :: c in digits ==> IsDigit(c)
    requires rest == [] || !IsDigit(rest[0])
    ensures LeadingDigits(digits + rest) == digits
  {
    if digits == [] {
      assert digits + rest == rest;
    } else {
      assert (digits + rest)[1..] == digits[1..] + rest;
      DigitsStop(digits[1..], rest);
    }
  }

  /** Spaces before a number are ignored. */
  lemma StoiSkipsSpaces(spaces: string, s: string)
    requires forall c :: c in spaces ==> c in " \t\n\U{0B}\U{0C}\r"
    requires s != [] && !IsSpace(s[0])
    ensures Stoi(spaces + s) == Stoi(s)
  {
    SpacesAreSkipped(spaces, s);
  }

  /** So is anything after its digits. */
  lemma StoiStops(n: nat, rest: string)
    requires rest == [] || !('0' <= rest[0] <= '9')
    ensures Stoi(Decimal(n) + rest) == if n < 0x8000_0000 then Ok(n) else Err(OutOfRange)
  {
    var s := Decimal(n) + rest;
    assert s[0] == Decimal(n)[0] && IsDigit(s[0]);
    DigitsStop(Decimal(n), rest);
    ValueOfDecimal(n);
  }

  /** So is a plus sign. */
  lemma StoiTakesPlus(s: string)
    requires s != [] && IsDigit(s[0])
    ensures Stoi("+" + s) == Stoi(s)
  {
    assert ("+" + s)[1..] == s;
  }

  /** Without a digit where the number should be, there is none. */
  lemma StoiNeedsDigit(s: string)
    requires s == [] || !(IsDigit(s[0]) || IsSpace(s[0]) || s[0] == '-' || s[0] == '+')
    ensures Stoi(s) == Err(InvalidArgument)
  {
  }

  // ----------------------------------------------------------------- addresses

  type i32 = x: int | -0x8000_0000 <= x < 0x8000_0000

  datatype Address = Address(serverId: i32, numaId: i32)

  /** Without a colon the source returns fields it never set. */
  datatype Parsed = Parsed(address: Address) | Indeterminate | Throws(error: StoiError)

  function Find(s: string, c: char): Option<nat> {
    if s == [] then None
    else if s[0] == c then Some(0)
    else match Find(s[1..], c)
         case None => None
         case Some(k) => Some(k + 1)
  }

  function ToString(a: Address): string {
    Signed(a.serverId) + ":" + Signed(a.numaId)
  }

  function FromString(s: string): Parsed {
    var pos := Find(s, ':');
    if pos.None? || pos.value >= |s| then Indeterminate
    else
      match Stoi(s[..pos.value])
      case Err(e) => Throws(e)
      case Ok(server) =>
        match Stoi(s[pos.value + 1..])
        case Err(e) => Throws(e)
        case Ok(numa) => Parsed(Address(server, numa))
  }

  lemma {:induction false} FindAfter(s: string, c: char, rest: string)
    requires c !in s
    ensures Find(s + [c] + rest, c) == Some(|s|)
  {
    if s == [] {
      assert s + [c] + rest == [c] + rest;
    } else {
      assert (s + [c] + rest)[1..] == s[1..] + [c] + rest;
      FindAfter(s[1..], c, rest);
    }
  }

  /** Parsing inverts printing for every pair of 32-bit ids, negative ones and the minimum included. */
  lemma PrintParse(a: Address)
    ensures FromString(ToString(a)) == Parsed(a)
  {
    var server, numa := Signed(a.serverId), Signed(a.numaId);
    var s := ToString(a);
    FindAfter(server, ':', numa);
    assert s == server + [':'] + numa;
    assert s[..|server|] == server && s[|server| + 1..] == numa;
    StoiReadsSigned(a.serverId);
    StoiReadsSigned(a.numaId);
  }

  lemma {:induction false} FindNone(s: string, c: char)
    ensures Find(s, c).None? <==> c !in s
    ensures Find(s, c).Some? ==> Find(s, c).value < |s|
  {
    if s == [] {
    } else {
      FindNone(s[1..], c);
    }
  }

  /** The result is indeterminate exactly for a string without a colon. */
  lemma IndeterminateIffNoColon(s: string)
    ensures FromString(s) == Indeterminate <==> ':' !in s
  {
    FindNone(s, ':');
  }

  /** The server comes first, in print and in parsing. */
  lemma ServerComesFirst()
    ensures ToString(Address(1, -2)) == "1:-2"
    ensures FromString("1:-2") == Parsed(Address(1, -2))
  {
    PrintParse(Address(1, -2));
  }

  /** Both parts must be numbers; the first that is not decides the exception. */
  lemma FirstBadPartThrows(server: string, numa: string)
    requires ':' !in server
    ensures FromString(server + ":" + numa) ==
            match Stoi(server)
            case Err(e) => Throws(e)
            case Ok(x) => (match Stoi(numa)
                           case Err(e) => Throws(e)
                           case Ok(y) => Parsed(Address(x, y)))
  {
    FindAfter(server, ':', numa);
    var s := server + ":" + numa;
    assert s == server + [':'] + numa;
    assert s[..|server|] == server && s[|server| + 1..] == numa;
  }
}
