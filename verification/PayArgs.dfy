// The arguments of a payment command: splitting, trimming and decimal parsing, and the
// web form that prints them only to have them parsed again.

module PayArgs {
  import opened Wrappers
  import opened Words

  datatype PayOrder = PayOrder(dst: string, amount: u64)

  // Unicode white space, which trimming removes.
  predicate IsSpace(c: char) {
    var p := c as int;
    || 0x09 <= p <= 0x0D || p == 0x20 || p == 0x85 || p == 0xA0 || p == 0x1680
    || 0x2000 <= p <= 0x200A || p == 0x2028 || p == 0x2029 || p == 0x202F || p == 0x205F || p == 0x3000
  }

  predicate AllSpace(s: string) {
    forall c :: c in s ==> IsSpace(c)
  }

  function TrimStart(s: string): string {
    if s != [] && IsSpace(s[0]) then TrimStart(s[1..]) else s
  }

  function TrimEnd(s: string): string {
    if s != [] && IsSpace(s[|s| - 1]) then TrimEnd(s[..|s| - 1]) else s
  }

  function Trim(s: string): string {
    TrimEnd(TrimStart(s))
  }

  // The text before and after the first blank, if there is one.
  function SplitAtBlank(s: string): Option<(string, string)> {
    if s == [] then None
    else if s[0] == ' ' then Some(("", s[1..]))
    else
      match SplitAtBlank(s[1..])
      case None => None
      case Some((head, tail)) => Some(([s[0]] + head, tail))
  }

  predicate IsDigit(c: char) {
    '0' <= c <= '9'
  }

  function DigitValue(c: char): nat
    requires IsDigit(c)
  {
    c as int - '0' as int
  }

  function DigitChar(d: nat): (c: char)
    requires d < 10
    ensures IsDigit(c) && DigitValue(c) == d
  {
    '0' + d as char
  }

  // Reads digits onto acc; fails on any other character and on overflow.
  function ParseDigits(acc: u64, s: string): Option<u64>
    decreases |s|
  {
    if s == [] then Some(acc)
    else if !IsDigit(s[0]) then None
    else
      var next := 10 * acc as int + DigitValue(s[0]);
      if next >= U64_LIMIT then None else ParseDigits(next, s[1..])
  }

  // The library's parser: one or more digits, after an optional plus sign.
  function ParseU64(s: string): Option<u64> {
    var digits := if s != [] && s[0] == '+' then s[1..] else s;
    if digits == [] then None else ParseDigits(0, digits)
  }

  function PrintU64(n: nat): (s: string)
    ensures s != [] && forall c :: c in s ==> IsDigit(c)
  {
    if n < 10 then [DigitChar(n)] else PrintU64(n / 10) + [DigitChar(n % 10)]
  }

  // What a payment command means; None where the client prints an error and returns.
  function ParsePay(args: string): Option<PayOrder> {
    match SplitAtBlank(args)
    case None => None
    case Some((head, tail)) =>
      match ParseU64(Trim(tail))
      case Some(n) => if n > 0 then Some(PayOrder(Trim(head), n)) else None
      case None => None
  }

  // The command the web interface composes.
  function WebArgs(dst: string, amount: u64): string {
    dst + " " + PrintU64(amount)
  }

  // ---------- printing then parsing ----------

  lemma {:induction false} ParseAppend(acc: u64, s: string, c: char)
    requires IsDigit(c) && ParseDigits(acc, s).Some?
    ensures var v := 10 * ParseDigits(acc, s).value as int + DigitValue(c);
            ParseDigits(acc, s + [c]) == if v < U64_LIMIT then Some(v) else None
    decreases |s|
  {
    if s == [] {
      assert s + [c] == [c] && [c][1..] == [];
    } else {
      assert (s + [c])[0] == s[0] && (s + [c])[1..] == s[1..] + [c];
      ParseAppend(10 * acc as int + DigitValue(s[0]), s[1..], c);
    }
  }

  lemma {:induction false} ParsePrint(n: u64)
    ensures ParseDigits(0, PrintU64(n)) == Some(n)
  {
    if n >= 10 {
      ParsePrint(n / 10);
      ParseAppend(0, PrintU64(n / 10), DigitChar(n % 10));
    } else {
      ParseAppend(0, "", DigitChar(n));
      assert "" + [DigitChar(n)] == [DigitChar(n)];
    }
  }

  // A number too large for a word is refused, never wrapped.
  lemma {:induction false} ParseOverflows(n: nat)
    requires n >= U64_LIMIT
    ensures ParseDigits(0, PrintU64(n)) == None
  {
    var s, c := PrintU64(n / 10), DigitChar(n % 10);
    if n / 10 < U64_LIMIT {
      ParsePrint(n / 10);
      ParseAppend(0, s, c);
    } else {
      ParseOverflows(n / 10);
      ParseFailAppend(0, s, [c]);
    }
  }

  lemma {:induction false} ParseFailAppend(acc: u64, s: string, t: string)
    requires ParseDigits(acc, s) == None
    ensures ParseDigits(acc, s + t) == None
    decreases |s|
  {
    assert (s + t)[0] == s[0] && (s + t)[1..] == s[1..] + t;
    if IsDigit(s[0]) && 10 * acc as int + DigitValue(s[0]) < U64_LIMIT {
      ParseFailAppend(10 * acc as int + DigitValue(s[0]), s[1..], t);
    }
  }

  lemma {:induction false} ParseRefuses(acc: u64, s: string, c: char)
    requires c in s && !IsDigit(c)
    ensures ParseDigits(acc, s) == None
    decreases |s|
  {
    if IsDigit(s[0]) && 10 * acc as int + DigitValue(s[0]) < U64_LIMIT {
      ParseRefuses(10 * acc as int + DigitValue(s[0]), s[1..], c);
    }
  }

  // ---------- trimming ----------

  lemma {:induction false} TrimStartKeeps(s: string, t: string)
    ensures AllSpace(s) ==> TrimStart(s + t) == TrimStart(t)
    ensures !AllSpace(s) ==> TrimStart(s) != [] && TrimStart(s + t) == TrimStart(s) + t
  {
    if s == [] {
      assert s + t == t;
    } else {
      assert (s + t)[0] == s[0] && (s + t)[1..] == s[1..] + t;
      assert s == [s[0]] + s[1..];
      TrimStartKeeps(s[1..], t);
    }
  }

  lemma {:induction false} TrimEndDrops(s: string, t: string)
    requires AllSpace(t)
    ensures TrimEnd(s + t) == TrimEnd(s)
  {
    if t == [] {
      assert s + t == s;
    } else {
      assert (s + t)[|s + t| - 1] == t[|t| - 1] && (s + t)[..|s + t| - 1] == s + t[..|t| - 1];
      TrimEndDrops(s, t[..|t| - 1]);
    }
  }

  lemma TrimDropsTail(s: string, t: string)
    requires AllSpace(t)
    ensures Trim(s + t) == Trim(s)
  {
    TrimStartKeeps(s, t);
    if AllSpace(s) {
      TrimStartKeeps(s, []);
      TrimStartKeeps(t, []);
      assert s + [] == s && t + [] == t;
    } else {
      TrimEndDrops(TrimStart(s), t);
    }
  }

  lemma {:induction false} SplitFindsFirst(head: string, tail: string)
    requires ' ' !in head
    ensures SplitAtBlank(head + " " + tail) == Some((head, tail))
    decreases |head|
  {
    var s := head + " " + tail;
    if head == [] {
      assert s[1..] == tail;
    } else {
      assert s[0] == head[0] && s[1..] == head[1..] + " " + tail;
      SplitFindsFirst(head[1..], tail);
      assert [head[0]] + head[1..] == head;
    }
  }

  lemma {:induction false} SplitNone(s: string)
    ensures SplitAtBlank(s) == None <==> ' ' !in s
    ensures SplitAtBlank(s).Some? ==>
              var (head, tail) := SplitAtBlank(s).value; ' ' !in head && s == head + " " + tail
  {
    if s != [] && s[0] != ' ' {
      SplitNone(s[1..]);
      assert s == [s[0]] + s[1..];
    }
  }

  lemma DigitsKept(digits: string)
    requires digits != [] && forall c :: c in digits ==> IsDigit(c)
    ensures Trim(digits) == digits
  {
    assert digits[0] in digits && digits[|digits| - 1] in digits;
  }

  lemma SpacedNumberParses(pad: string, amount: u64)
    requires AllSpace(pad)
    ensures ParseU64(Trim(pad + PrintU64(amount))) == Some(amount)
  {
    TrimStartKeeps(pad, PrintU64(amount));
    TrimStartKeeps("", PrintU64(amount));
    DigitsKept(PrintU64(amount));
    assert PrintU64(amount)[0] in PrintU64(amount);
    ParsePrint(amount);
  }

  // Digits after white space parse to the number; digits after other text and a blank do not
  // parse.
  lemma TailParses(pad: string, amount: u64)
    requires pad != [] ==> pad[|pad| - 1] == ' '
    ensures ParseU64(Trim(pad + PrintU64(amount))) == if AllSpace(pad) then Some(amount) else None
  {
    if AllSpace(pad) {
      SpacedNumberParses(pad, amount);
    } else {
      var digits := PrintU64(amount);
      var front := PadFront(pad);
      TrimStartKeeps(pad, digits);
      MixedTextRefused(front, digits);
    }
  }

  lemma PadFront(pad: string) returns (front: string)
    requires !AllSpace(pad) && pad[|pad| - 1] == ' '
    ensures front != [] && TrimStart(pad) == front + " "
  {
    var s := pad[..|pad| - 1];
    assert pad == s + " ";
    assert forall c :: c in pad ==> c in s || c == ' ';
    assert !AllSpace(s);
    TrimStartKeeps(s, " ");
    front := TrimStart(s);
  }

  lemma MixedTextRefused(front: string, digits: string)
    requires front != [] && digits != [] && forall c :: c in digits ==> IsDigit(c)
    ensures ParseU64(TrimEnd(front + " " + digits)) == None
  {
    var text := front + " " + digits;
    assert text[|text| - 1] == digits[|digits| - 1] && digits[|digits| - 1] in digits;
    assert TrimEnd(text) == text;
    assert text[|front|] == ' ' && text[1..][|front| - 1] == ' ';
    ParseRefuses(0, text, ' ');
    ParseRefuses(0, text[1..], ' ');
  }

  lemma WebPayOneWord(dst: string, amount: u64)
    requires ' ' !in dst && amount > 0
    ensures ParsePay(WebArgs(dst, amount)) == Some(PayOrder(Trim(dst), amount))
  {
    var digits := PrintU64(amount);
    SplitFindsFirst(dst, digits);
    TailParses("", amount);
    assert "" + digits == digits;
  }

  lemma WebPayManyWords(head: string, rest: string, amount: u64)
    requires ' ' !in head && amount > 0
    ensures ParsePay(WebArgs(head + " " + rest, amount)) ==
            if AllSpace(rest) then Some(PayOrder(Trim(head), amount)) else None
  {
    var pad, digits := rest + " ", PrintU64(amount);
    assert WebArgs(head + " " + rest, amount) == head + " " + (pad + digits);
    SplitFindsFirst(head, pad + digits);
    TailParses(pad, amount);
    assert forall c :: c in pad <==> c in rest || c == ' ';
    assert AllSpace(pad) <==> AllSpace(rest);
  }

  lemma DestinationTrims(head: string, rest: string)
    requires AllSpace(rest)
    ensures Trim(head + " " + rest) == Trim(head)
  {
    assert AllSpace(" " + rest);
    TrimDropsTail(head, " " + rest);
    assert head + " " + rest == head + (" " + rest);
  }

  // A payment ordered in the web form is either refused or carried out exactly: refused just
  // when something other than white space follows the first blank of the destination.
  lemma WebPayRoundTrip(dst: string, amount: u64)
    requires amount > 0
    ensures var blank := SplitAtBlank(dst);
            ParsePay(WebArgs(dst, amount)) ==
            if blank.None? || AllSpace(blank.value.1) then Some(PayOrder(Trim(dst), amount)) else None
  {
    SplitNone(dst);
    if SplitAtBlank(dst).None? {
      WebPayOneWord(dst, amount);
    } else {
      var (head, rest) := SplitAtBlank(dst).value;
      WebPayManyWords(head, rest, amount);
      if AllSpace(rest) {
        DestinationTrims(head, rest);
      }
    }
  }

  // ---------- what a typed command means ----------

  // The characters counted as white space.
  const WHITE: string :=
    "\U{9}\U{A}\U{B}\U{C}\U{D} \U{85}\U{A0}\U{1680}"
    + "\U{2000}\U{2001}\U{2002}\U{2003}\U{2004}\U{2005}\U{2006}\U{2007}\U{2008}\U{2009}\U{200A}"
    + "\U{2028}\U{2029}\U{202F}\U{205F}\U{3000}"

  predicate White(s: string) {
    forall c :: c in s ==> c in WHITE
  }

  predicate Decimal(s: string) {
    forall i :: 0 <= i < |s| ==> '0' <= s[i] <= '9'
  }

  // The number a row of digits denotes.
  function Value(digits: string): nat
    requires Decimal(digits)
  {
    if digits == [] then 0
    else 10 * Value(digits[..|digits| - 1]) + (digits[|digits| - 1] as int - '0' as int)
  }

  // A destination and an amount, with white space around them, and a blank between.
  datatype Command =
    Command(pad1: string, dst: string, pad2: string, pad3: string, sign: string, digits: string, pad4: string)

  function Typed(c: Command): string {
    c.pad1 + c.dst + c.pad2 + " " + c.pad3 + c.sign + c.digits + c.pad4
  }

  // The blank is the first one, the destination has no white space at its ends, and the amount is
  // a row of digits, possibly after a plus sign.
  predicate WellFormed(c: Command) {
    && White(c.pad1) && White(c.pad2) && White(c.pad3) && White(c.pad4)
    && ' ' !in c.pad1 && ' ' !in c.dst && ' ' !in c.pad2
    && (c.dst != [] ==> c.dst[0] !in WHITE && c.dst[|c.dst| - 1] !in WHITE)
    && c.sign in {"", "+"}
    && c.digits != []
    && Decimal(c.digits)
  }

  lemma SpaceIsWhite(c: char)
    ensures IsSpace(c) <==> c in WHITE
  {
    var ascii, spaces := "\U{9}\U{A}\U{B}\U{C}\U{D} \U{85}\U{A0}\U{1680}",
      "\U{2000}\U{2001}\U{2002}\U{2003}\U{2004}\U{2005}\U{2006}\U{2007}\U{2008}\U{2009}\U{200A}";
    var rest := "\U{2028}\U{2029}\U{202F}\U{205F}\U{3000}";
    assert WHITE == ascii + spaces + rest;
    assert c in WHITE <==> c in ascii || c in spaces || c in rest;
  }

  lemma WhiteIsSpace(s: string)
    ensures White(s) <==> AllSpace(s)
  {
    forall c
      ensures IsSpace(c) <==> c in WHITE
    {
      SpaceIsWhite(c);
    }
  }

  // Reading digits from the left onto acc.
  function ValueFrom(acc: nat, s: string): nat
    requires Decimal(s)
    decreases |s|
  {
    if s == [] then acc else ValueFrom(10 * acc + DigitValue(s[0]), s[1..])
  }

  lemma {:induction false} ValueFromAppend(acc: nat, s: string, c: char)
    requires Decimal(s) && IsDigit(c)
    ensures Decimal(s + [c])
    ensures ValueFrom(acc, s + [c]) == 10 * ValueFrom(acc, s) + DigitValue(c)
    decreases |s|
  {
    if s == [] {
      assert s + [c] == [c] && [c][1..] == [];
    } else {
      assert (s + [c])[0] == s[0] && (s + [c])[1..] == s[1..] + [c];
      ValueFromAppend(10 * acc + DigitValue(s[0]), s[1..], c);
    }
  }

  lemma {:induction false} ValueIs(s: string)
    requires Decimal(s)
    ensures ValueFrom(0, s) == Value(s)
  {
    if s != [] {
      var init, last := s[..|s| - 1], s[|s| - 1];
      assert s == init + [last];
      ValueIs(init);
      ValueFromAppend(0, init, last);
    }
  }

  lemma {:induction false} ParseDigitsIs(acc: u64, s: string)
    requires Decimal(s)
    ensures ValueFrom(acc, s) >= acc
    ensures ParseDigits(acc, s) == if ValueFrom(acc, s) < U64_LIMIT then Some(ValueFrom(acc, s)) else None
    decreases |s|
  {
    if s != [] {
      var next := 10 * acc as int + DigitValue(s[0]);
      if next < U64_LIMIT {
        ParseDigitsIs(next, s[1..]);
      } else {
        ValueGrows(next, s[1..]);
      }
    }
  }

  lemma {:induction false} ValueGrows(acc: nat, s: string)
    requires Decimal(s)
    ensures ValueFrom(acc, s) >= acc
    decreases |s|
  {
    if s != [] {
      ValueGrows(10 * acc + DigitValue(s[0]), s[1..]);
    }
  }

  // A text that parses is a row of digits.
  lemma ParsedIsDigits(s: string)
    requires ParseDigits(0, s).Some?
    ensures Decimal(s) && Value(s) == ParseDigits(0, s).value
  {
    if i :| 0 <= i < |s| && !IsDigit(s[i]) {
      ParseRefuses(0, s, s[i]);
    } else {
      ParseDigitsIs(0, s);
      ValueIs(s);
    }
  }

  // Trimming takes white space off both ends, and nothing else.
  lemma {:induction false} TrimStartSplits(s: string) returns (pad: string)
    ensures s == pad + TrimStart(s) && AllSpace(pad)
    ensures TrimStart(s) != [] ==> !IsSpace(TrimStart(s)[0])
  {
    if s != [] && IsSpace(s[0]) {
      var rest := TrimStartSplits(s[1..]);
      pad := [s[0]] + rest;
      assert s == [s[0]] + s[1..];
    } else {
      pad := [];
    }
  }

  lemma {:induction false} TrimEndSplits(s: string) returns (pad: string)
    ensures s == TrimEnd(s) + pad && AllSpace(pad)
    ensures TrimEnd(s) != [] ==> !IsSpace(TrimEnd(s)[|TrimEnd(s)| - 1])
  {
    if s != [] && IsSpace(s[|s| - 1]) {
      var rest := TrimEndSplits(s[..|s| - 1]);
      pad := rest + [s[|s| - 1]];
      assert s == s[..|s| - 1] + [s[|s| - 1]];
    } else {
      pad := [];
    }
  }

  lemma TrimSplits(s: string) returns (before: string, after: string)
    ensures s == before + Trim(s) + after && AllSpace(before) && AllSpace(after)
    ensures Trim(s) != [] ==> !IsSpace(Trim(s)[0]) && !IsSpace(Trim(s)[|Trim(s)| - 1])
  {
    before := TrimStartSplits(s);
    after := TrimEndSplits(TrimStart(s));
    assert Trim(s) != [] ==> TrimStart(s)[0] == Trim(s)[0];
    assert before + Trim(s) + after == before + (Trim(s) + after);
  }

  lemma TrimOf(before: string, core: string, after: string)
    requires AllSpace(before) && AllSpace(after)
    requires core != [] ==> !IsSpace(core[0]) && !IsSpace(core[|core| - 1])
    ensures Trim(before + core + after) == core
  {
    assert before + core + after == before + (core + after);
    TrimStartKeeps(before, core + after);
    if core == [] {
      assert core + after == after;
      TrimStartKeeps(after, []);
      assert after + [] == after;
    } else {
      assert TrimStart(core + after) == core + after;
      TrimEndDrops(core, after);
    }
  }

  // The amount a parsed text spells,
  lemma NumberSpells(number: string) returns (sign: string, digits: string)
    requires ParseU64(number).Some?
    ensures number == sign + digits && sign in {"", "+"} && digits != []
    ensures Decimal(digits) && Value(digits) == ParseU64(number).value
  {
    sign := if number != [] && number[0] == '+' then "+" else "";
    digits := number[|sign|..];
    ParsedIsDigits(digits);
  }

  // the whole command it spells,
  lemma ParsedIsCommand(args: string) returns (c: Command)
    requires ParsePay(args).Some?
    ensures WellFormed(c) && args == Typed(c)
    ensures c.dst == ParsePay(args).value.dst && Value(c.digits) == ParsePay(args).value.amount > 0
  {
    SplitNone(args);
    var (head, tail) := SplitAtBlank(args).value;
    var pad1, pad2 := TrimSplits(head);
    var pad3, pad4 := TrimSplits(tail);
    var sign, digits := NumberSpells(Trim(tail));
    c := Command(pad1, Trim(head), pad2, pad3, sign, digits, pad4);
    CommandIsTyped(c, head, tail);
    PartsWellFormed(c, head);
  }

  lemma PartsWellFormed(c: Command, head: string)
    requires AllSpace(c.pad1) && AllSpace(c.pad2) && AllSpace(c.pad3) && AllSpace(c.pad4)
    requires head == c.pad1 + c.dst + c.pad2 && ' ' !in head
    requires c.dst != [] ==> !IsSpace(c.dst[0]) && !IsSpace(c.dst[|c.dst| - 1])
    requires c.sign in {"", "+"} && c.digits != [] && Decimal(c.digits)
    ensures WellFormed(c)
  {
    EndsNotWhite(c.dst);
    WhiteIsSpace(c.pad1);
    WhiteIsSpace(c.pad2);
    WhiteIsSpace(c.pad3);
    WhiteIsSpace(c.pad4);
    BlankFree(c.pad1, c.dst, c.pad2);
  }

  lemma BlankFree(a: string, b: string, c: string)
    requires ' ' !in a + b + c
    ensures ' ' !in a && ' ' !in b && ' ' !in c
  {
    assert forall x :: x in a ==> x in a + b + c;
    assert forall x :: x in b ==> x in a + b + c;
    assert forall x :: x in c ==> x in a + b + c;
  }

  lemma EndsNotWhite(s: string)
    ensures (s != [] ==> !IsSpace(s[0]) && !IsSpace(s[|s| - 1]))
       <==> (s != [] ==> s[0] !in WHITE && s[|s| - 1] !in WHITE)
  {
    if s != [] {
      SpaceIsWhite(s[0]);
      SpaceIsWhite(s[|s| - 1]);
    }
  }

  lemma CommandIsTyped(c: Command, head: string, tail: string)
    requires head == c.pad1 + c.dst + c.pad2 && tail == c.pad3 + (c.sign + c.digits) + c.pad4
    ensures Typed(c) == head + " " + tail
  {
  }

  lemma DestinationRead(c: Command)
    requires WellFormed(c)
    ensures Trim(c.pad1 + c.dst + c.pad2) == c.dst
  {
    WhiteIsSpace(c.pad1);
    WhiteIsSpace(c.pad2);
    EndsNotWhite(c.dst);
    TrimOf(c.pad1, c.dst, c.pad2);
  }

  lemma SignedParses(sign: string, digits: string)
    requires sign in {"", "+"} && digits != [] && Decimal(digits)
    ensures ParseU64(sign + digits) == if Value(digits) < U64_LIMIT then Some(Value(digits)) else None
  {
    var number := sign + digits;
    if sign == "" {
      assert number == digits && digits[0] != '+';
    } else {
      assert number[0] == '+' && number[1..] == digits;
    }
    DigitsParse(digits);
  }

  lemma EndsAreInk(sign: string, digits: string)
    requires sign in {"", "+"} && digits != [] && Decimal(digits)
    ensures var number := sign + digits; !IsSpace(number[0]) && !IsSpace(number[|number| - 1])
  {
    var number := sign + digits;
    assert number[|number| - 1] == digits[|digits| - 1];
    assert number[0] == if sign == "" then digits[0] else '+';
  }

  lemma DigitsParse(digits: string)
    requires Decimal(digits)
    ensures ParseDigits(0, digits) == if Value(digits) < U64_LIMIT then Some(Value(digits)) else None
  {
    ParseDigitsIs(0, digits);
    ValueIs(digits);
  }

  lemma AmountRead(c: Command)
    requires WellFormed(c)
    ensures ParseU64(Trim(c.pad3 + (c.sign + c.digits) + c.pad4))
         == if Value(c.digits) < U64_LIMIT then Some(Value(c.digits)) else None
  {
    WhiteIsSpace(c.pad3);
    WhiteIsSpace(c.pad4);
    SignedParses(c.sign, c.digits);
    EndsAreInk(c.sign, c.digits);
    TrimOf(c.pad3, c.sign + c.digits, c.pad4);
  }

  // and what a spelled command parses to.
  lemma CommandParses(c: Command)
    requires WellFormed(c)
    ensures ParsePay(Typed(c))
         == if 0 < Value(c.digits) < U64_LIMIT then Some(PayOrder(c.dst, Value(c.digits))) else None
  {
    var head, tail := c.pad1 + c.dst + c.pad2, c.pad3 + (c.sign + c.digits) + c.pad4;
    CommandIsTyped(c, head, tail);
    SplitFindsFirst(head, tail);
    DestinationRead(c);
    AmountRead(c);
  }

  // A typed payment command is an order for this destination and amount exactly if it spells them.
  lemma CommandMeans(args: string, dst: string, amount: u64)
    ensures ParsePay(args) == Some(PayOrder(dst, amount))
       <==> exists c :: WellFormed(c) && args == Typed(c) && c.dst == dst && Value(c.digits) == amount > 0
  {
    if ParsePay(args) == Some(PayOrder(dst, amount)) {
      var c := ParsedIsCommand(args);
    }
    if c :| WellFormed(c) && args == Typed(c) && c.dst == dst && Value(c.digits) == amount > 0 {
      CommandParses(c);
    }
  }
}
