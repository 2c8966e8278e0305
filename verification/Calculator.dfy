/** The expression scanner of the calculator server (A1/B/server.c). */
module Calculator {
  import opened Decimal

  const INT_MAX := 2147483647
  // Largest operand for which `num * 10 + ch - '0'`, taken left to right, stays within an int.
  const OPERAND_MAX := 2147483599

  datatype Fault = Overflow | DivideByZero
  // `Undefined` marks the executions to which C gives no meaning.
  datatype Outcome = Result(value: int) | Undefined(fault: Fault)

  // ---------- what the scanner is to find in the text ----------

  /** The text without its newlines. */
  function Visible(t: string): string {
    if t == "" then ""
    else Visible(t[..|t| - 1]) + (if t[|t| - 1] == '\n' then "" else [t[|t| - 1]])
  }

  function OnlyDigits(t: string): (d: string)
    ensures AllDigits(d)
  {
    if t == "" then ""
    else OnlyDigits(t[..|t| - 1]) + (if IsDigit(t[|t| - 1]) then [t[|t| - 1]] else "")
  }

  /** The digits before the first non-digit. */
  function LeftDigits(v: string): (d: string)
    ensures AllDigits(d)
  {
    v[..DigitRun(v)]
  }

  /** All the digits after the first non-digit. */
  function RightDigits(v: string): (d: string)
    ensures AllDigits(d)
  {
    OnlyDigits(v[DigitRun(v)..])
  }

  /** The last non-digit, or the uninitialised variable's content when there is none. */
  function LastOperator(v: string, junk: char): char {
    if v == "" then junk
    else if !IsDigit(v[|v| - 1]) then v[|v| - 1]
    else LastOperator(v[..|v| - 1], junk)
  }

  function InRange(v: int): Outcome {
    if -INT_MAX - 1 <= v <= INT_MAX then Result(v) else Undefined(Overflow)
  }

  predicate IsOperator(op: char) {
    op == '+' || op == '-' || op == '*' || op == '/'
  }

  function Arithmetic(op: char, a: nat, b: nat): int
    requires IsOperator(op) && (op == '/' ==> b != 0)
  {
    if op == '+' then a + b else if op == '-' then a - b else if op == '*' then a * b else a / b
  }

  /** The value of `a op b`: undefined without a divisor or out of range, 0 for other operators. */
  function Evaluate(op: char, a: nat, b: nat): Outcome {
    if !IsOperator(op) then Result(0)
    else if op == '/' && b == 0 then Undefined(DivideByZero)
    else InRange(Arithmetic(op, a, b))
  }

  /** Everything the scanner keeps about the text read so far. */
  datatype Reading = Reading(num1: nat, num2: nat, op: char, split: bool)

  function ReadVisible(v: string, junk: char): Reading {
    Reading(Value(LeftDigits(v)), Value(RightDigits(v)), LastOperator(v, junk), DigitRun(v) < |v|)
  }

  function Read(t: string, junk: char): Reading {
    ReadVisible(Visible(t), junk)
  }

  /** What follows the five characters that are skipped. */
  function Expression(ch: string): string {
    if |ch| <= 5 then "" else ch[5..]
  }

  /** Meaning of a request: five characters are skipped, the rest is an expression. */
  function Meaning(ch: string, junk: char): Outcome {
    var r := Read(Expression(ch), junk);
    if r.num1 > OPERAND_MAX || r.num2 > OPERAND_MAX then Undefined(Overflow)
    else Evaluate(r.op, r.num1, r.num2)
  }

  // ---------- one character more ----------

  lemma {:induction false} RunOfExtension(v: string, c: char)
    ensures DigitRun(v + [c]) == if DigitRun(v) < |v| || !IsDigit(c) then DigitRun(v) else |v| + 1
  {
    if v == "" {
      assert v + [c] == [c];
      assert [c][1..] == "";
    } else {
      assert (v + [c])[1..] == v[1..] + [c];
      if IsDigit(v[0]) {
        RunOfExtension(v[1..], c);
      }
    }
  }

  lemma CutOfExtension(v: string, c: char, r: nat)
    requires r <= |v|
    ensures (v + [c])[..r] == v[..r] && (v + [c])[r..] == v[r..] + [c]
  {
  }

  lemma WholeAndNothing(v: string)
    ensures v[..|v|] == v && v[|v|..] == ""
  {
  }

  lemma LeftOfExtension(v: string, c: char)
    ensures LeftDigits(v + [c]) == if IsDigit(c) && DigitRun(v) == |v| then LeftDigits(v) + [c] else LeftDigits(v)
  {
    RunOfExtension(v, c);
    WholeAndNothing(v);
    WholeAndNothing(v + [c]);
    CutOfExtension(v, c, DigitRun(v));
  }

  lemma ValueOfExtension(d: string, c: char)
    requires AllDigits(d) && IsDigit(c)
    ensures Value(d + [c]) == 10 * Value(d) + (c as int - '0' as int)
  {
    assert (d + [c])[..|d|] == d;
  }

  lemma OnlyDigitsOfExtension(t: string, c: char)
    ensures OnlyDigits(t + [c]) == OnlyDigits(t) + if IsDigit(c) then [c] else ""
  {
    assert (t + [c])[..|t|] == t;
  }

  lemma RightOfExtension(v: string, c: char)
    ensures RightDigits(v + [c]) == if IsDigit(c) && DigitRun(v) < |v| then RightDigits(v) + [c] else RightDigits(v)
  {
    RunOfExtension(v, c);
    WholeAndNothing(v);
    WholeAndNothing(v + [c]);
    CutOfExtension(v, c, DigitRun(v));
    OnlyDigitsOfExtension(v[DigitRun(v)..], c);
  }

  function Advance(r: Reading, c: char): Reading {
    if c == '\n' then r
    else if !IsDigit(c) then r.(op := c, split := true)
    else if r.split then r.(num2 := 10 * r.num2 + (c as int - '0' as int))
    else r.(num1 := 10 * r.num1 + (c as int - '0' as int))
  }

  lemma VisibleOfExtension(t: string, c: char)
    ensures Visible(t + [c]) == if c == '\n' then Visible(t) else Visible(t) + [c]
  {
    assert (t + [c])[..|t|] == t;
  }

  lemma OperatorOfExtension(v: string, c: char, junk: char)
    ensures LastOperator(v + [c], junk) == if IsDigit(c) then LastOperator(v, junk) else c
  {
    assert (v + [c])[..|v|] == v;
  }

  lemma ReadVisibleExtension(v: string, c: char, junk: char)
    requires c != '\n'
    ensures ReadVisible(v + [c], junk) == Advance(ReadVisible(v, junk), c)
  {
    LeftOfExtension(v, c);
    RightOfExtension(v, c);
    OperatorOfExtension(v, c, junk);
    RunOfExtension(v, c);
    if IsDigit(c) {
      ValueOfExtension(LeftDigits(v), c);
      ValueOfExtension(RightDigits(v), c);
    }
  }

  /** The scanner's state after the text, one character at a time. */
  function ScannedText(t: string, junk: char): Reading {
    if t == "" then Reading(0, 0, junk, false) else Advance(ScannedText(t[..|t| - 1], junk), t[|t| - 1])
  }

  /** Going through the text once finds what is to be found in it. */
  lemma {:induction false} ScanFinds(t: string, junk: char)
    ensures ScannedText(t, junk) == Read(t, junk)
  {
    if t == "" {
    } else {
      var front, c := t[..|t| - 1], t[|t| - 1];
      assert t == front + [c];
      ScanFinds(front, junk);
      VisibleOfExtension(front, c);
      if c != '\n' {
        ReadVisibleExtension(Visible(front), c, junk);
      }
    }
  }

  lemma ScanNext(t: string, n: nat, junk: char)
    requires n < |t|
    ensures ScannedText(t[..n + 1], junk) == Advance(ScannedText(t[..n], junk), t[n])
  {
    assert t[..n + 1][..n] == t[..n];
  }

  /** Operands only grow as more text is read. */
  lemma {:induction false} OperandsGrow(t: string, n: nat, junk: char)
    requires n <= |t|
    ensures ScannedText(t[..n], junk).num1 <= ScannedText(t, junk).num1
    ensures ScannedText(t[..n], junk).num2 <= ScannedText(t, junk).num2
    decreases |t| - n
  {
    if n == |t| {
      assert t[..n] == t;
    } else {
      ScanNext(t, n, junk);
      OperandsGrow(t, n + 1, junk);
    }
  }

  lemma MeaningOfScan(ch: string, junk: char)
    ensures var r := ScannedText(Expression(ch), junk);
      Meaning(ch, junk) == if r.num1 > OPERAND_MAX || r.num2 > OPERAND_MAX then Undefined(Overflow)
                           else Evaluate(r.op, r.num1, r.num2)
  {
    ScanFinds(Expression(ch), junk);
  }

  /** An operand that is too large after a part of the expression makes it undefined. */
  lemma OverflowShows(ch: string, n: nat, junk: char)
    requires n <= |Expression(ch)|
    requires var r := ScannedText(Expression(ch)[..n], junk); r.num1 > OPERAND_MAX || r.num2 > OPERAND_MAX
    ensures Meaning(ch, junk) == Undefined(Overflow)
  {
    OperandsGrow(Expression(ch), n, junk);
    MeaningOfScan(ch, junk);
  }

  // ---------- the scanner ----------

  /** The switch statement of lines 112-126. */
  method Switch(op: char, num1: nat, num2: nat) returns (result: Outcome)
    ensures result == Evaluate(op, num1, num2)
  {
    match op
    case '+' => result := InRange(num1 + num2);
    case '-' => result := InRange(num1 - num2);
    case '*' => result := InRange(num1 * num2);
    case '/' =>
      if num2 == 0 {
        return Undefined(DivideByZero);
      }
      result := InRange(num1 / num2);
    case _ => result := Result(0);
  }

  /** One more digit of an operand, added up from the left as the code does it. */
  method AddDigit(num: int, c: char) returns (ok: bool, sum: int)
    requires 0 <= num && IsDigit(c)
    ensures sum == 10 * num + (c as int - '0' as int)
    ensures ok <==> sum <= OPERAND_MAX
  {
    ok := num * 10 + c as int <= INT_MAX;
    sum := num * 10 + c as int - '0' as int;
  }

  /** `calc`; junk is the content of its uninitialised operator variable. */
  method Calc(ch: string, junk: char) returns (result: Outcome)
    ensures result == Meaning(ch, junk)
  {
    var num1, num2 := 0, 0;
    var op := junk;
    var state := 0;
    ghost var text := Expression(ch);
    var i := 5;
    while i < |ch|
      invariant 5 <= i <= 5 + |text|
      invariant 0 <= num1 <= OPERAND_MAX && 0 <= num2 <= OPERAND_MAX
      invariant Reading(num1, num2, op, state == 1) == ScannedText(text[..i - 5], junk)
      invariant state == 0 || state == 1
    {
      ScanNext(text, i - 5, junk);
      var ok := true;
      if ch[i] != '\n' {
        if '0' <= ch[i] <= '9' {
          if state == 0 {
            ok, num1 := AddDigit(num1, ch[i]);
          } else {
            ok, num2 := AddDigit(num2, ch[i]);
          }
        } else {
          op := ch[i];
          state := 1;
        }
      }
      i := i + 1;
      if !ok {
        OverflowShows(ch, i - 5, junk);
        return Undefined(Overflow);
      }
    }
    assert text[..i - 5] == text;
    MeaningOfScan(ch, junk);
    result := Switch(op, num1, num2);
  }

  // ---------- what requests of the expected shape mean ----------

  predicate NoDigits(t: string) {
    forall i :: 0 <= i < |t| ==> !IsDigit(t[i])
  }

  predicate NoNewline(t: string) {
    forall i :: 0 <= i < |t| ==> t[i] != '\n'
  }

  lemma VisibleOfNewline(t: string)
    ensures Visible(t + "\n") == Visible(t)
  {
    assert (t + "\n")[..|t|] == t;
  }

  lemma {:induction false} VisibleOfLine(t: string)
    requires NoNewline(t)
    ensures Visible(t) == t
  {
    if t == "" {
    } else {
      VisibleOfLine(t[..|t| - 1]);
    }
  }

  lemma {:induction false} DigitsOfTail(mid: string, d: string, junk: char)
    requires NoDigits(mid) && AllDigits(d)
    ensures OnlyDigits(mid + d) == d
    ensures LastOperator(mid + d, junk) == if mid == "" then junk else mid[|mid| - 1]
    decreases |mid| + |d|
  {
    if mid + d == "" {
    } else if d == "" {
      var front, c := mid[..|mid| - 1], mid[|mid| - 1];
      assert mid + "" == front + [c] && front + "" == front;
      DigitsOfTail(front, "", junk);
      OnlyDigitsOfExtension(front, c);
      OperatorOfExtension(front, c, junk);
    } else {
      var front, c := d[..|d| - 1], d[|d| - 1];
      assert mid + d == (mid + front) + [c] && d == front + [c];
      DigitsOfTail(mid, front, junk);
      OnlyDigitsOfExtension(mid + front, c);
      OperatorOfExtension(mid + front, c, junk);
    }
  }

  lemma {:induction false} LastOperatorOfTail(head: string, t: string, junk: char)
    requires t != "" && !IsDigit(t[0])
    ensures LastOperator(head + t, junk) == LastOperator(t, junk)
    decreases |t|
  {
    var w := head + t;
    if IsDigit(t[|t| - 1]) {
      assert w[..|w| - 1] == head + t[..|t| - 1];
      LastOperatorOfTail(head, t[..|t| - 1], junk);
    }
  }

  lemma ReadVisibleExpression(d: string, mid: string, e: string, junk: char)
    requires AllDigits(d) && AllDigits(e) && mid != "" && NoDigits(mid)
    ensures ReadVisible(d + (mid + e), junk) == Reading(Value(d), Value(e), mid[|mid| - 1], true)
  {
    var tail := mid + e;
    RunOfDigits(d, tail);
    assert (d + tail)[..|d|] == d && (d + tail)[|d|..] == tail;
    DigitsOfTail(mid, e, junk);
    LastOperatorOfTail(d, tail, junk);
  }

  lemma ReadExpression(a: nat, mid: string, b: nat, junk: char)
    requires mid != "" && NoDigits(mid) && NoNewline(mid)
    ensures Read(Digits(a) + (mid + Digits(b)) + "\n", junk) == Reading(a, b, mid[|mid| - 1], true)
  {
    DigitsValue(a);
    DigitsValue(b);
    var t := Digits(a) + (mid + Digits(b));
    VisibleOfLine(t);
    VisibleOfNewline(t);
    ReadVisibleExpression(Digits(a), mid, Digits(b), junk);
  }

  /** A request line: a word of five characters, then number, separator, number, newline. */
  function Request(word: string, a: nat, mid: string, b: nat): string {
    word + (Digits(a) + (mid + Digits(b)) + "\n")
  }

  /** The separator's last character decides which operation is carried out. */
  lemma MeaningOfRequest(word: string, a: nat, mid: string, b: nat, junk: char)
    requires |word| == 5 && mid != "" && NoDigits(mid) && NoNewline(mid)
    ensures Meaning(Request(word, a, mid, b), junk) ==
      if a > OPERAND_MAX || b > OPERAND_MAX then Undefined(Overflow)
      else Evaluate(mid[|mid| - 1], a, b)
  {
    var e := Digits(a) + (mid + Digits(b)) + "\n";
    assert (word + e)[5..] == e;
    ReadExpression(a, mid, b, junk);
  }

  /** `calc` answers an arithmetic request correctly exactly when both operands are at most
      2147483599, a divisor is not zero and the true answer fits in 32 bits. */
  lemma CorrectExactlyWithinRange(word: string, a: nat, op: char, b: nat, junk: char)
    requires |word| == 5 && IsOperator(op)
    ensures (op == '/' ==> b != 0) && Meaning(Request(word, a, [op], b), junk) == Result(Arithmetic(op, a, b))
      <==> a <= OPERAND_MAX && b <= OPERAND_MAX
           && (op == '/' ==> b != 0) && -INT_MAX - 1 <= Arithmetic(op, a, b) <= INT_MAX
  {
    MeaningOfRequest(word, a, [op], b, junk);
  }

  /** Blanks are taken for operators: an expression written with a blank before its second
      operand is answered 0 (whatever the operands within range). */
  lemma BlankBeforeOperandIsLost(word: string, a: nat, op: char, b: nat, junk: char)
    requires |word| == 5 && IsOperator(op) && a <= OPERAND_MAX && b <= OPERAND_MAX
    ensures Meaning(Request(word, a, [op, ' '], b), junk) == Result(0)
  {
    MeaningOfRequest(word, a, [op, ' '], b, junk);
  }

  // ---------- the operators one by one ----------

  lemma SumOfOperands(word: string, a: nat, b: nat, junk: char)
    requires |word| == 5 && a <= 2147483599 && b <= 2147483599
    ensures Meaning(Request(word, a, "+", b), junk) ==
      if a + b <= 2147483647 then Result(a + b) else Undefined(Overflow)
  {
    MeaningOfRequest(word, a, "+", b, junk);
  }

  lemma DifferenceOfOperands(word: string, a: nat, b: nat, junk: char)
    requires |word| == 5 && a <= 2147483599 && b <= 2147483599
    ensures Meaning(Request(word, a, "-", b), junk) == Result(a - b)
  {
    MeaningOfRequest(word, a, "-", b, junk);
  }

  lemma ProductOfOperands(word: string, a: nat, b: nat, junk: char)
    requires |word| == 5 && a <= 2147483599 && b <= 2147483599
    ensures Meaning(Request(word, a, "*", b), junk) ==
      if a * b <= 2147483647 then Result(a * b) else Undefined(Overflow)
  {
    MeaningOfRequest(word, a, "*", b, junk);
    EvaluatedProduct(a, b);
  }

  lemma BoundsOfDivision(a: nat, b: nat, q: nat, r: nat)
    requires a == q * b + r && r < b
    ensures q * b <= a < (q + 1) * b && q <= a
  {
    assert (q + 1) * b == q * b + b;
    assert q * b == q + q * (b - 1);
  }

  lemma EvaluatedQuotient(a: nat, b: nat)
    requires b > 0 && a <= 2147483599
    ensures var m := Evaluate('/', a, b); m.Result? && m.value * b <= a < (m.value + 1) * b
  {
    var q, r := a / b, a % b;
    BoundsOfDivision(a, b, q, r);
    assert Evaluate('/', a, b) == InRange(q);
  }

  lemma EvaluatedProduct(a: nat, b: nat)
    ensures Evaluate('*', a, b) == if a * b <= 2147483647 then Result(a * b) else Undefined(Overflow)
  {
  }

  lemma QuotientOfOperands(word: string, a: nat, b: nat, junk: char)
    requires |word| == 5 && a <= 2147483599 && b <= 2147483599
    ensures var m := Meaning(Request(word, a, "/", b), junk);
      if b == 0 then m == Undefined(DivideByZero) else m.Result? && m.value * b <= a < (m.value + 1) * b
  {
    MeaningOfRequest(word, a, "/", b, junk);
    assert Meaning(Request(word, a, "/", b), junk) == Evaluate('/', a, b);
    if b != 0 {
      EvaluatedQuotient(a, b);
    }
  }

  /** A larger operand is undefined whatever the operator. */
  lemma LargeOperand(word: string, a: nat, op: char, b: nat, junk: char)
    requires |word| == 5 && !IsDigit(op) && op != '\n' && (a > 2147483599 || b > 2147483599)
    ensures Meaning(Request(word, a, [op], b), junk) == Undefined(Overflow)
  {
    MeaningOfRequest(word, a, [op], b, junk);
  }

  /** Any other character right before the second operand makes the answer 0. */
  lemma OtherOperatorGivesZero(word: string, a: nat, mid: string, op: char, b: nat, junk: char)
    requires |word| == 5 && a <= 2147483599 && b <= 2147483599
    requires NoDigits(mid + [op]) && NoNewline(mid + [op]) && op !in "+-*/"
    ensures Meaning(Request(word, a, mid + [op], b), junk) == Result(0)
  {
    MeaningOfRequest(word, a, mid + [op], b, junk);
    assert (mid + [op])[|mid + [op]| - 1] == op;
    assert "+-*/"[0] == '+' && "+-*/"[1] == '-' && "+-*/"[2] == '*' && "+-*/"[3] == '/';
  }

  // ---------- longer expressions ----------

  lemma {:induction false} DigitsAndMarks(b: string, op: char, e: string, junk: char)
    requires AllDigits(b) && AllDigits(e) && !IsDigit(op)
    ensures OnlyDigits(b + [op] + e) == b + e
    ensures LastOperator(b + [op] + e, junk) == op
    decreases |e|
  {
    if e == "" {
      assert b + [op] + "" == b + [op] && b + "" == b;
      OnlyDigitsOfExtension(b, op);
      OnlyDigitsOfDigits(b);
      OperatorOfExtension(b, op, junk);
    } else {
      var front, c := e[..|e| - 1], e[|e| - 1];
      assert b + [op] + e == (b + [op] + front) + [c] && b + e == (b + front) + [c];
      DigitsAndMarks(b, op, front, junk);
      OnlyDigitsOfExtension(b + [op] + front, c);
      OperatorOfExtension(b + [op] + front, c, junk);
    }
  }

  lemma {:induction false} OnlyDigitsOfDigits(b: string)
    requires AllDigits(b)
    ensures OnlyDigits(b) == b
  {
    if b == "" {
    } else {
      var front, c := b[..|b| - 1], b[|b| - 1];
      assert b == front + [c];
      OnlyDigitsOfDigits(front);
      OnlyDigitsOfExtension(front, c);
    }
  }

  lemma ReadVisibleChain(d: string, op1: char, b: string, op2: char, e: string, junk: char)
    requires AllDigits(d) && AllDigits(b) && AllDigits(e) && !IsDigit(op1) && !IsDigit(op2)
    ensures AllDigits(b + e)
    ensures ReadVisible(d + ([op1] + (b + [op2] + e)), junk) == Reading(Value(d), Value(b + e), op2, true)
  {
    var rest := b + [op2] + e;
    var tail := [op1] + rest;
    RunOfDigits(d, tail);
    assert (d + tail)[..|d|] == d && (d + tail)[|d|..] == tail;
    DigitsAndMarks(b, op2, e, junk);
    OnlyDigitsBehind(op1, rest);
    assert d + tail == (d + [op1]) + rest;
    LastOperatorBehind(d + [op1], b, op2, e, junk);
  }

  lemma {:induction false} OnlyDigitsBehind(op: char, t: string)
    requires !IsDigit(op)
    ensures OnlyDigits([op] + t) == OnlyDigits(t)
    decreases |t|
  {
    if t == "" {
      assert [op] + "" == "" + [op];
      OnlyDigitsOfExtension("", op);
    } else {
      var front, c := t[..|t| - 1], t[|t| - 1];
      assert [op] + t == ([op] + front) + [c] && t == front + [c];
      OnlyDigitsBehind(op, front);
      OnlyDigitsOfExtension([op] + front, c);
      OnlyDigitsOfExtension(front, c);
    }
  }

  lemma {:induction false} LastOperatorBehind(head: string, b: string, op: char, e: string, junk: char)
    requires AllDigits(e) && !IsDigit(op)
    ensures LastOperator(head + (b + [op] + e), junk) == op
    decreases |e|
  {
    var t := head + (b + [op] + e);
    if e == "" {
      assert t == (head + b) + [op];
      OperatorOfExtension(head + b, op, junk);
    } else {
      var front, c := e[..|e| - 1], e[|e| - 1];
      assert t == (head + (b + [op] + front)) + [c];
      LastOperatorBehind(head, b, op, front, junk);
      OperatorOfExtension(head + (b + [op] + front), c, junk);
    }
  }

  lemma LineOfParts(d: string, op: char, rest: string)
    requires AllDigits(d) && op != '\n' && (AllDigits(rest) || NoNewline(rest))
    ensures NoNewline(d + [op] + rest)
  {
  }

  lemma LineOfChain(d: string, op1: char, b: string, op2: char, e: string)
    requires AllDigits(d) && AllDigits(b) && AllDigits(e) && op1 != '\n' && op2 != '\n'
    ensures NoNewline(d + ([op1] + (b + [op2] + e)))
  {
    LineOfParts(b, op2, e);
    LineOfParts(d, op1, b + [op2] + e);
    assert d + ([op1] + (b + [op2] + e)) == d + [op1] + (b + [op2] + e);
  }

  lemma ReadLine(t: string, junk: char)
    requires NoNewline(t)
    ensures Read(t + "\n", junk) == ReadVisible(t, junk)
  {
    VisibleOfLine(t);
    VisibleOfNewline(t);
  }

  lemma ReadChainText(d: string, op1: char, b: string, op2: char, e: string, junk: char)
    requires AllDigits(d) && AllDigits(b) && AllDigits(e) && !IsDigit(op1) && !IsDigit(op2)
    requires op1 != '\n' && op2 != '\n'
    ensures AllDigits(b + e)
    ensures Read(d + ([op1] + (b + [op2] + e)) + "\n", junk) == Reading(Value(d), Value(b + e), op2, true)
  {
    LineOfChain(d, op1, b, op2, e);
    ReadLine(d + ([op1] + (b + [op2] + e)), junk);
    ReadVisibleChain(d, op1, b, op2, e, junk);
  }

  lemma ReadChain(a: nat, op1: char, b: nat, op2: char, e: nat, junk: char)
    requires !IsDigit(op1) && !IsDigit(op2) && op1 != '\n' && op2 != '\n'
    ensures AllDigits(Digits(b) + Digits(e))
    ensures Read(Digits(a) + ([op1] + (Digits(b) + [op2] + Digits(e))) + "\n", junk) ==
      Reading(a, Value(Digits(b) + Digits(e)), op2, true)
  {
    DigitsValue(a);
    DigitsValue(b);
    DigitsValue(e);
    ReadChainText(Digits(a), op1, Digits(b), op2, Digits(e), junk);
  }

  lemma MeaningOfReading(word: string, t: string, r: Reading, junk: char)
    requires |word| == 5 && Read(t, junk) == r && r.num1 <= 2147483599 && r.num2 <= 2147483599
    ensures Meaning(word + t, junk) == Evaluate(r.op, r.num1, r.num2)
  {
    assert (word + t)[5..] == t;
  }

  /** A third operand: the digits of the second and third run together, and the last operator
      counts, so that `1+2-3` is 1 - 23. */
  lemma ChainedOperands(word: string, a: nat, op1: char, b: nat, op2: char, e: nat, junk: char)
    requires |word| == 5 && !IsDigit(op1) && !IsDigit(op2) && op1 != '\n' && op2 != '\n'
    ensures AllDigits(Digits(b) + Digits(e))
    ensures var ch := word + (Digits(a) + ([op1] + (Digits(b) + [op2] + Digits(e))) + "\n");
      var num2 := Value(Digits(b) + Digits(e));
      a <= 2147483599 && num2 <= 2147483599 ==>
        && (op2 == '+' && a + num2 <= 2147483647 ==> Meaning(ch, junk) == Result(a + num2))
        && (op2 == '-' ==> Meaning(ch, junk) == Result(a - num2))
  {
    ReadChain(a, op1, b, op2, e, junk);
    var t, num2 := Digits(a) + ([op1] + (Digits(b) + [op2] + Digits(e))) + "\n", Value(Digits(b) + Digits(e));
    if a <= 2147483599 && num2 <= 2147483599 {
      MeaningOfReading(word, t, Reading(a, num2, op2, true), junk);
    }
  }
}
