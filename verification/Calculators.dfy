// The two calculators of leetcode/calculator.cpp.  An expression is a tree
// whose tokens carry the blanks written before them, so that its text ranges
// over every spacing; the calculators are proved to return the tree's value.

module Numerals {

  type Digit = c: char | '0' <= c <= '9' witness '0'

  // A number written in decimal, after blanks and leading zeros.
  datatype Number = Number(blanks: nat, zeros: nat, value: nat)

  function Blanks(n: nat): (s: string)
    ensures |s| == n
  {
    if n == 0 then "" else " " + Blanks(n - 1)
  }

  function Zeros(n: nat): (s: seq<Digit>) {
    if n == 0 then [] else Zeros(n - 1) + ['0']
  }

  function Decimal(n: nat): (s: seq<Digit>)
    ensures s != []
  {
    if n < 10 then ["0123456789"[n]] else Decimal(n / 10) + ["0123456789"[n % 10]]
  }

  function Digits(n: Number): (s: seq<Digit>)
    ensures s != []
  {
    Zeros(n.zeros) + Decimal(n.value)
  }

  function First(n: Number): Digit { Digits(n)[0] }
  function More(n: Number): seq<Digit> { Digits(n)[1..] }

  function NumberText(n: Number): string {
    Blanks(n.blanks) + Digits(n)
  }

  lemma NumberParts(n: Number)
    ensures NumberText(n) == Blanks(n.blanks) + [First(n)] + More(n)
  {
    assert Digits(n) == [First(n)] + More(n);
  }

  function DigitOf(c: char): int {
    c as int - '0' as int
  }

  // The number reached from `num` by reading further digits.
  function Shift(num: int, digits: seq<char>): int
    decreases |digits|
  {
    if digits == [] then num else Shift(num * 10 + DigitOf(digits[0]), digits[1..])
  }

  lemma DigitsMean(i: nat)
    requires i < 10
    ensures DigitOf("0123456789"[i]) == i
  {
  }

  lemma {:induction false} ShiftAll(num: int, digits: seq<char>, last: char)
    ensures Shift(num, digits + [last]) == Shift(num, digits) * 10 + DigitOf(last)
    decreases |digits|
  {
    if digits == [] {
      assert Shift(num * 10 + DigitOf(last), []) == num * 10 + DigitOf(last);
      assert (digits + [last])[1..] == [];
    } else {
      assert (digits + [last])[1..] == digits[1..] + [last];
      ShiftAll(num * 10 + DigitOf(digits[0]), digits[1..], last);
    }
  }

  // Reading back what was printed.
  lemma {:induction false} ReadsDecimal(zeros: nat, n: nat)
    ensures Shift(0, Zeros(zeros) + Decimal(n)) == n
    decreases zeros + n
  {
    if n >= 10 {
      ReadsDecimal(zeros, n / 10);
      ShiftAll(0, Zeros(zeros) + Decimal(n / 10), "0123456789"[n % 10]);
      DigitsMean(n % 10);
      assert Zeros(zeros) + Decimal(n) == Zeros(zeros) + Decimal(n / 10) + ["0123456789"[n % 10]];
    } else {
      ReadsZeros(zeros);
      ShiftAll(0, Zeros(zeros), "0123456789"[n]);
      DigitsMean(n);
    }
  }

  lemma {:induction false} ReadsZeros(zeros: nat)
    ensures Shift(0, Zeros(zeros)) == 0
  {
    if zeros > 0 {
      ReadsZeros(zeros - 1);
      ShiftAll(0, Zeros(zeros - 1), '0');
    }
  }

  lemma ReadsNumber(n: Number)
    ensures Shift(DigitOf(First(n)), More(n)) == n.value
  {
    ReadsDecimal(n.zeros, n.value);
    assert Digits(n) == [First(n)] + More(n);
  }

  function Power10(n: nat): nat {
    if n == 0 then 1 else 10 * Power10(n - 1)
  }

  // The digits times their powers of ten, from the last one on.
  function PlaceValue(digits: seq<char>): int {
    if digits == [] then 0 else DigitOf(digits[0]) * Power10(|digits| - 1) + PlaceValue(digits[1..])
  }

  lemma {:induction false} ShiftIsPlaceValue(num: int, digits: seq<char>)
    ensures Shift(num, digits) == num * Power10(|digits|) + PlaceValue(digits)
    decreases |digits|
  {
    if digits != [] {
      var p := Power10(|digits| - 1);
      ShiftIsPlaceValue(num * 10 + DigitOf(digits[0]), digits[1..]);
      assert (num * 10 + DigitOf(digits[0])) * p == num * (10 * p) + DigitOf(digits[0]) * p;
    }
  }

  lemma Regroup(a: string, b: string, c: string, d: string)
    ensures a + b + c + d == a + (b + (c + d))
  {
  }
}

// Calculator2: + - * / over non-negative numbers.
module PrecedenceCalculator {
  import opened Arithmetic
  import opened Numerals
  import opened Options

  // ----- expressions: * and / bind tighter, all four group to the left

  datatype Product =
    | Factor(n: Number)
    | Times(left: Product, blanks: nat, right: Number)
    | Over(left: Product, blanks: nat, right: Number)

  datatype Sum =
    | Term(p: Product)
    | Plus(left: Sum, blanks: nat, right: Product)
    | Minus(left: Sum, blanks: nat, right: Product)

  function ProductText(p: Product): string {
    match p
    case Factor(n) => NumberText(n)
    case Times(l, k, r) => ProductText(l) + (Blanks(k) + "*") + NumberText(r)
    case Over(l, k, r) => ProductText(l) + (Blanks(k) + "/") + NumberText(r)
  }

  function SumText(e: Sum): string {
    match e
    case Term(p) => ProductText(p)
    case Plus(l, k, r) => SumText(l) + (Blanks(k) + "+") + ProductText(r)
    case Minus(l, k, r) => SumText(l) + (Blanks(k) + "-") + ProductText(r)
  }

  function ProductValue(p: Product): Option<int> {
    match p
    case Factor(n) => Some(n.value)
    case Times(l, _, r) =>
      var v := ProductValue(l);
      if v.None? then None else Some(v.value * r.value)
    case Over(l, _, r) =>
      var v := ProductValue(l);
      if v.None? || r.value == 0 then None else Some(Quotient(v.value, r.value))
  }

  // None when some divisor is zero.
  function SumValue(e: Sum): Option<int> {
    match e
    case Term(p) => ProductValue(p)
    case Plus(l, _, r) =>
      var a, b := SumValue(l), ProductValue(r);
      if a.None? || b.None? then None else Some(a.value + b.value)
    case Minus(l, _, r) =>
      var a, b := SumValue(l), ProductValue(r);
      if a.None? || b.None? then None else Some(a.value - b.value)
  }

  // ----- what the program does; None where its behaviour is undefined

  type Tokens = seq<int>   // val of each Token; the operator flag is never read

  const ADD := '+' as int
  const SUB := '-' as int
  const MUL := '*' as int
  const DIV := '/' as int

  function MultiDivide(tokens: Tokens, num: int): Option<Tokens> {
    var n := |tokens|;
    if n > 0 && tokens[n - 1] == MUL then
      if n == 1 then None else Some(tokens[..n - 2] + [tokens[n - 2] * num])
    else if n > 0 && tokens[n - 1] == DIV then
      if n == 1 || num == 0 then None else Some(tokens[..n - 2] + [Quotient(tokens[n - 2], num)])
    else Some(tokens + [num])
  }

  datatype Scan = Scan(tokens: Tokens, number: bool, num: int)

  function Flush(st: Scan): Option<Scan> {
    if !st.number then Some(st)
    else
      var t := MultiDivide(st.tokens, st.num);
      if t.None? then None else Some(Scan(t.value, false, 0))
  }

  predicate IsOperator(c: char) {
    c == '+' || c == '-' || c == '*' || c == '/'
  }

  function Read(st: Scan, c: char): Option<Scan> {
    if IsOperator(c) || c == ' ' then
      var f := Flush(st);
      if f.None? || c == ' ' then f else Some(f.value.(tokens := f.value.tokens + [c as int]))
    else Some(Scan(st.tokens, true, st.num * 10 + DigitOf(c)))
  }

  function ReadAll(st: Scan, s: string): Option<Scan>
    decreases |s|
  {
    if s == "" then Some(st)
    else
      var r := Read(st, s[0]);
      if r.None? then None else ReadAll(r.value, s[1..])
  }

  // The final left-to-right pass over operators and operands.
  function Tally(ans: int, rest: Tokens): Option<int>
    decreases |rest|
  {
    if rest == [] then Some(ans)
    else if rest[0] == ADD then if |rest| == 1 then None else Tally(ans + rest[1], rest[2..])
    else if rest[0] == SUB then if |rest| == 1 then None else Tally(ans - rest[1], rest[2..])
    else Tally(ans, rest[1..])
  }

  function Evaluated(s: string): Option<int> {
    var st := ReadAll(Scan([], false, 0), s);
    if st.None? then None
    else
      var f := Flush(st.value);
      if f.None? then None
      else if f.value.tokens == [] then Some(0)
      else Tally(f.value.tokens[0], f.value.tokens[1..])
  }

  // ----- reading the text of an expression

  lemma {:induction false} ReadDigits(st: Scan, digits: seq<Digit>, rest: string)
    requires st.number
    ensures ReadAll(st, digits + rest) == ReadAll(st.(num := Shift(st.num, digits)), rest)
    decreases |digits|
  {
    if digits == [] {
      assert digits + rest == rest;
    } else {
      var st' := st.(num := st.num * 10 + DigitOf(digits[0]));
      assert (digits + rest)[0] == digits[0] && (digits + rest)[1..] == digits[1..] + rest;
      ReadDigits(st', digits[1..], rest);
    }
  }

  lemma {:induction false} SkipBlanks(st: Scan, k: nat, rest: string)
    requires Flush(st).Some?
    ensures ReadAll(st, Blanks(k) + rest) == (if k == 0 then ReadAll(st, rest) else ReadAll(Flush(st).value, rest))
    decreases k
  {
    if k == 0 {
      assert Blanks(k) + rest == rest;
    } else {
      assert (Blanks(k) + rest)[0] == ' ' && (Blanks(k) + rest)[1..] == Blanks(k - 1) + rest;
      SkipBlanks(Flush(st).value, k - 1, rest);
    }
  }

  lemma ReadNumber(tokens: Tokens, n: Number, rest: string)
    ensures ReadAll(Scan(tokens, false, 0), NumberText(n) + rest) == ReadAll(Scan(tokens, true, n.value), rest)
  {
    var tail := [First(n)] + More(n) + rest;
    NumberParts(n);
    var st := Scan(tokens, false, 0);
    assert NumberText(n) + rest == Blanks(n.blanks) + tail;
    SkipBlanks(st, n.blanks, tail);
    assert tail[0] == First(n) && tail[1..] == More(n) + rest;
    ReadDigits(Scan(tokens, true, DigitOf(First(n))), More(n), rest);
    ReadsNumber(n);
  }

  lemma ReadOperator(st: Scan, k: nat, c: char, rest: string)
    requires Flush(st).Some? && IsOperator(c)
    ensures ReadAll(st, (Blanks(k) + [c]) + rest)
         == ReadAll(Scan(Flush(st).value.tokens + [c as int], false, Flush(st).value.num), rest)
  {
    assert (Blanks(k) + [c]) + rest == Blanks(k) + ([c] + rest);
    SkipBlanks(st, k, [c] + rest);
    assert ([c] + rest)[0] == c && ([c] + rest)[1..] == rest;
  }

  // A list to which a product may be added: it does not end in * or /.
  predicate Open(tokens: Tokens) {
    |tokens| > 0 ==> tokens[|tokens| - 1] != MUL && tokens[|tokens| - 1] != DIV
  }

  // The state after the text of p: its last number is not yet pushed.
  function AfterProduct(tokens: Tokens, p: Product): Scan
    requires ProductValue(p).Some?
  {
    match p
    case Factor(n) => Scan(tokens, true, n.value)
    case Times(l, _, r) => Scan(tokens + [ProductValue(l).value, MUL], true, r.value)
    case Over(l, _, r) => Scan(tokens + [ProductValue(l).value, DIV], true, r.value)
  }

  lemma FlushProduct(tokens: Tokens, p: Product)
    requires Open(tokens) && ProductValue(p).Some?
    ensures Flush(AfterProduct(tokens, p)) == Some(Scan(tokens + [ProductValue(p).value], false, 0))
  {
    if !p.Factor? {
      var t := AfterProduct(tokens, p).tokens;
      assert t[..|t| - 2] == tokens;
    }
  }

  lemma ReadFactor(tokens: Tokens, p: Product, rest: string)
    requires Open(tokens) && ProductValue(p).Some? && !p.Factor?
    ensures ReadAll(AfterProduct(tokens, p.left), ProductTail(p) + (NumberText(p.right) + rest))
         == ReadAll(AfterProduct(tokens, p), rest)
  {
    FlushProduct(tokens, p.left);
    var c := if p.Times? then '*' else '/';
    ReadOperator(AfterProduct(tokens, p.left), p.blanks, c, NumberText(p.right) + rest);
    var t := tokens + [ProductValue(p.left).value];
    assert t + [c as int] == AfterProduct(tokens, p).tokens;
    ReadNumber(t + [c as int], p.right, rest);
  }

  // The operator of a product, after its left part.
  function ProductTail(p: Product): string
    requires !p.Factor?
  {
    Blanks(p.blanks) + (if p.Times? then "*" else "/")
  }

  lemma {:induction false} ReadProduct(tokens: Tokens, p: Product, rest: string)
    requires Open(tokens) && ProductValue(p).Some?
    ensures ReadAll(Scan(tokens, false, 0), ProductText(p) + rest) == ReadAll(AfterProduct(tokens, p), rest)
    decreases p
  {
    if p.Factor? {
      ReadNumber(tokens, p.n, rest);
    } else {
      var tail := ProductTail(p) + (NumberText(p.right) + rest);
      Regroup(ProductText(p.left), ProductTail(p), NumberText(p.right), rest);
      ReadProduct(tokens, p.left, tail);
      ReadFactor(tokens, p, rest);
    }
  }

  // The tokens of a sum once its last product is pushed.
  function FirstOf(e: Sum): Product {
    if e.Term? then e.p else FirstOf(e.left)
  }

  function Others(e: Sum): Tokens
    requires SumValue(e).Some?
  {
    match e
    case Term(_) => []
    case Plus(l, _, r) => Others(l) + [ADD, ProductValue(r).value]
    case Minus(l, _, r) => Others(l) + [SUB, ProductValue(r).value]
  }

  lemma {:induction false} FirstHasValue(e: Sum)
    requires SumValue(e).Some?
    ensures ProductValue(FirstOf(e)).Some?
  {
    if !e.Term? { FirstHasValue(e.left); }
  }

  ghost function Pushed(e: Sum): Tokens
    requires SumValue(e).Some?
  {
    FirstHasValue(e);
    [ProductValue(FirstOf(e)).value] + Others(e)
  }

  // The tokens before the last product, and that product.
  ghost function Before(e: Sum): Tokens
    requires SumValue(e).Some?
  {
    match e
    case Term(_) => []
    case Plus(l, _, _) => Pushed(l) + [ADD]
    case Minus(l, _, _) => Pushed(l) + [SUB]
  }

  function Last(e: Sum): Product {
    if e.Term? then e.p else e.right
  }

  lemma FlushSum(e: Sum)
    requires SumValue(e).Some?
    ensures Open(Before(e)) && ProductValue(Last(e)).Some?
    ensures Flush(AfterProduct(Before(e), Last(e))) == Some(Scan(Pushed(e), false, 0))
  {
    FlushProduct(Before(e), Last(e));
    assert Before(e) + [ProductValue(Last(e)).value] == Pushed(e);
  }

  // The operator of a sum, after its left part.
  function Tail(e: Sum): string
    requires !e.Term?
  {
    Blanks(e.blanks) + (if e.Plus? then "+" else "-")
  }

  lemma ReadTail(e: Sum, rest: string)
    requires SumValue(e).Some? && !e.Term?
    ensures ReadAll(AfterProduct(Before(e.left), Last(e.left)), Tail(e) + (ProductText(e.right) + rest))
         == ReadAll(AfterProduct(Before(e), Last(e)), rest)
  {
    FlushSum(e);
    FlushSum(e.left);
    var c := if e.Plus? then '+' else '-';
    ReadOperator(AfterProduct(Before(e.left), Last(e.left)), e.blanks, c, ProductText(e.right) + rest);
    ReadProduct(Before(e), e.right, rest);
  }

  lemma {:induction false} ReadSum(e: Sum, rest: string)
    requires SumValue(e).Some?
    ensures ReadAll(Scan([], false, 0), SumText(e) + rest) == ReadAll(AfterProduct(Before(e), Last(e)), rest)
    decreases e
  {
    if e.Term? {
      ReadProduct([], e.p, rest);
    } else {
      var tail := Tail(e) + (ProductText(e.right) + rest);
      Regroup(SumText(e.left), Tail(e), ProductText(e.right), rest);
      ReadSum(e.left, tail);
      ReadTail(e, rest);
    }
  }

  lemma {:induction false} TallySum(e: Sum, rest: Tokens)
    requires SumValue(e).Some? && ProductValue(FirstOf(e)).Some?
    ensures Tally(ProductValue(FirstOf(e)).value, Others(e) + rest) == Tally(SumValue(e).value, rest)
    decreases e
  {
    if e.Term? {
      assert Others(e) + rest == rest;
    } else {
      var pair := [if e.Plus? then ADD else SUB, ProductValue(e.right).value];
      assert Others(e) + rest == Others(e.left) + (pair + rest);
      TallySum(e.left, pair + rest);
      assert (pair + rest)[2..] == rest;
    }
  }

  // Main result: whatever the blanks, the text of an expression without zero
  // divisors is evaluated to the expression's value.
  lemma TextEvaluates(e: Sum, trailing: nat)
    requires SumValue(e).Some?
    ensures Evaluated(SumText(e) + Blanks(trailing)) == SumValue(e)
  {
    var st := AfterProduct(Before(e), Last(e));
    ReadSum(e, Blanks(trailing));
    FlushSum(e);
    SkipBlanks(st, trailing, "");
    assert Blanks(trailing) + "" == Blanks(trailing);
    FirstHasValue(e);
    TallySum(e, []);
    assert Others(e) + [] == Others(e);
    assert Pushed(e)[1..] == Others(e);
  }

  // One of the source's own examples.
  lemma Example()
    ensures Evaluated("3+2*2") == Some(7)
  {
    var product := Times(Factor(Number(0, 0, 2)), 0, Number(0, 0, 2));
    var e := Plus(Term(Factor(Number(0, 0, 3))), 0, product);
    TextEvaluates(e, 0);
    assert ProductText(product) == "2*2" && SumText(e) + Blanks(0) == "3+2*2";
  }

  lemma BlankTextIsZero(k: nat)
    ensures Evaluated(Blanks(k)) == Some(0)
  {
    SkipBlanks(Scan([], false, 0), k, "");
    assert Blanks(k) + "" == Blanks(k);
  }

  // ----- the program

  // The lambda multi_divide.
  method MultiplyOrDivide(tokens: Tokens, num: int) returns (tokens': Tokens)
    requires MultiDivide(tokens, num).Some?
    ensures Some(tokens') == MultiDivide(tokens, num)
  {
    tokens' := tokens;
    var num' := num;
    if |tokens'| > 0 {
      if tokens'[|tokens'| - 1] == MUL {
        tokens' := tokens'[..|tokens'| - 1];
        num' := num' * tokens'[|tokens'| - 1];
        tokens' := tokens'[..|tokens'| - 1];
      } else if tokens'[|tokens'| - 1] == DIV {
        tokens' := tokens'[..|tokens'| - 1];
        num' := Quotient(tokens'[|tokens'| - 1], num');
        tokens' := tokens'[..|tokens'| - 1];
      }
    }
    tokens' := tokens' + [num'];
    var n := |tokens|;
    assert n > 1 ==> tokens[..n - 1][..n - 2] == tokens[..n - 2];
  }

  lemma ReadHead(st: Scan, s: string, i: nat)
    requires i < |s| && ReadAll(st, s[i..]).Some?
    ensures Read(st, s[i]).Some? && ReadAll(Read(st, s[i]).value, s[i + 1..]) == ReadAll(st, s[i..])
  {
    assert s[i..][1..] == s[i + 1..];
  }

  lemma TallyHead(ans: int, tokens: Tokens, j: nat)
    requires j < |tokens|
    ensures Tally(ans, tokens[j..]) ==
      if tokens[j] != ADD && tokens[j] != SUB then Tally(ans, tokens[j + 1..])
      else if j + 1 == |tokens| then None
      else Tally(if tokens[j] == ADD then ans + tokens[j + 1] else ans - tokens[j + 1], tokens[j + 2..])
  {
    assert tokens[j..][1..] == tokens[j + 1..];
    if j + 1 < |tokens| { assert tokens[j..][2..] == tokens[j + 2..]; }
  }

  // Wherever the behaviour is defined, in particular on the text of every
  // expression without zero divisors.
  method Calculate(s: string) returns (ans: int)
    requires Evaluated(s).Some?
    ensures Some(ans) == Evaluated(s)
    ensures forall e, k :: s == SumText(e) + Blanks(k) && SumValue(e).Some? ==> SumValue(e) == Some(ans)
  {
    forall e, k | s == SumText(e) + Blanks(k) && SumValue(e).Some? ensures Evaluated(s) == SumValue(e) {
      TextEvaluates(e, k);
    }
    var tokens: Tokens, number, num := [], false, 0;
    ghost var scanned := ReadAll(Scan([], false, 0), s);
    var i := 0;
    while i < |s|
      invariant 0 <= i <= |s|
      invariant ReadAll(Scan(tokens, number, num), s[i..]) == scanned && scanned.Some?
    {
      var c := s[i];
      ReadHead(Scan(tokens, number, num), s, i);
      if c == '+' || c == '-' || c == '*' || c == '/' || c == ' ' {
        if number {
          tokens := MultiplyOrDivide(tokens, num);
          number, num := false, 0;
        }
        if c != ' ' { tokens := tokens + [c as int]; }
      } else {
        number := true;
        num := num * 10 + DigitOf(c);
      }
      i := i + 1;
    }
    if number { tokens := MultiplyOrDivide(tokens, num); }
    if |tokens| == 0 { return 0; }
    ans := AddUp(tokens);
  }

  // The pass over the tokens, operators in every other place.
  method AddUp(tokens: Tokens) returns (ans: int)
    requires tokens != [] && Tally(tokens[0], tokens[1..]).Some?
    ensures Some(ans) == Tally(tokens[0], tokens[1..])
  {
    ans := tokens[0];
    var j := 1;
    while j < |tokens|
      invariant 1 <= j <= |tokens|
      invariant Tally(ans, tokens[j..]) == Tally(tokens[0], tokens[1..])
    {
      TallyHead(ans, tokens, j);
      if tokens[j] == ADD {
        j := j + 1;
        ans := ans + tokens[j];
      } else if tokens[j] == SUB {
        j := j + 1;
        ans := ans - tokens[j];
      }
      j := j + 1;
    }
  }
}

// Calculator: + - and parentheses over non-negative numbers.
module GroupCalculator {
  import opened Numerals
  import opened Options

  // ----- expressions: + and - group to the left

  datatype Item = Literal(n: Number) | Group(blanks: nat, e: Sum, closing: nat)

  datatype Sum =
    | Single(i: Item)
    | Plus(left: Sum, blanks: nat, right: Item)
    | Minus(left: Sum, blanks: nat, right: Item)

  function ItemText(i: Item): string {
    match i
    case Literal(n) => NumberText(n)
    case Group(k, e, closing) => (Blanks(k) + "(") + SumText(e) + (Blanks(closing) + ")")
  }

  function SumText(e: Sum): string {
    match e
    case Single(i) => ItemText(i)
    case Plus(l, k, r) => SumText(l) + (Blanks(k) + "+") + ItemText(r)
    case Minus(l, k, r) => SumText(l) + (Blanks(k) + "-") + ItemText(r)
  }

  function ItemValue(i: Item): int {
    match i
    case Literal(n) => n.value
    case Group(_, e, _) => SumValue(e)
  }

  function SumValue(e: Sum): int {
    match e
    case Single(i) => ItemValue(i)
    case Plus(l, _, r) => SumValue(l) + ItemValue(r)
    case Minus(l, _, r) => SumValue(l) - ItemValue(r)
  }

  // ----- what the program does

  type Tokens = seq<int>   // val of each Token

  const ADD := '+' as int
  const SUB := '-' as int

  // None where the behaviour is undefined.
  function PlusMinus(tokens: Tokens, num: int): Option<Tokens> {
    var n := |tokens|;
    if n > 0 && tokens[n - 1] == ADD then
      if n == 1 then None else Some(tokens[..n - 2] + [num + tokens[n - 2]])
    else if n > 0 && tokens[n - 1] == SUB then
      if n == 1 then None else Some(tokens[..n - 2] + [tokens[n - 2] - num])
    else Some(tokens + [num])
  }

  // A pending number is pushed; num is negative when there is none.
  function Settle(tokens: Tokens, num: int): Option<Tokens> {
    if num >= 0 then PlusMinus(tokens, num) else Some(tokens)
  }

  // The value a call returns and the position where it stops: the end of the
  // text, or the parenthesis that ended the call.
  datatype Outcome = Undefined | Done(value: int, pos: nat)

  function Help(s: string, pos: nat, tokens: Tokens, num: int): (r: Outcome)
    ensures r.Done? ==> r.pos >= pos
    decreases |s| - pos, 0
  {
    var settled := Settle(tokens, num);
    var none := if num >= 0 then -1 else num;
    if pos >= |s| then
      if settled.None? || settled.value == [] then Undefined else Done(settled.value[|settled.value| - 1], pos)
    else if s[pos] == '+' || s[pos] == '-' then
      if settled.None? then Undefined else Help(s, pos + 1, settled.value + [s[pos] as int], none)
    else if s[pos] == '(' then
      HelpGroup(s, pos + 1, tokens)
    else if s[pos] == ')' then
      if settled.None? || |settled.value| != 1 then Undefined else Done(settled.value[0], pos)
    else if s[pos] == ' ' then
      if settled.None? then Undefined else Help(s, pos + 1, settled.value, none)
    else Help(s, pos + 1, tokens, (if num < 0 then 0 else num) * 10 + DigitOf(s[pos]))
  }

  // After an opening parenthesis.
  function HelpGroup(s: string, pos: nat, tokens: Tokens): (r: Outcome)
    requires pos <= |s|
    ensures r.Done? ==> r.pos >= pos
    decreases |s| - pos, 1
  {
    var inner := Help(s, pos, [], -1);
    if inner.Undefined? then Undefined
    else
      var t := PlusMinus(tokens, inner.value);
      if t.None? then Undefined else Help(s, inner.pos + 1, t.value, -1)
  }

  // ----- reading the text of an expression

  // The text t stands in s at this position.
  predicate Occurs(s: string, pos: nat, t: string) {
    pos + |t| <= |s| && s[pos..pos + |t|] == t
  }

  lemma OccursSplit(s: string, pos: nat, a: string, b: string)
    requires Occurs(s, pos, a + b)
    ensures Occurs(s, pos, a) && Occurs(s, pos + |a|, b)
  {
    var t := s[pos..pos + |a + b|];
    assert t[..|a|] == a && t[|a|..] == b;
  }

  lemma OccursParts(s: string, pos: nat, a: string, b: string, c: string)
    requires Occurs(s, pos, a + b + c)
    ensures Occurs(s, pos, a) && Occurs(s, pos + |a|, b) && Occurs(s, pos + |a| + |b|, c)
  {
    OccursSplit(s, pos, a + b, c);
    OccursSplit(s, pos, a, b);
  }

  lemma {:induction false} ReadDigits(s: string, pos: nat, digits: seq<Digit>, tokens: Tokens, num: int)
    requires Occurs(s, pos, digits) && num >= 0
    ensures Help(s, pos, tokens, num) == Help(s, pos + |digits|, tokens, Shift(num, digits))
    decreases |digits|
  {
    if digits != [] {
      assert digits == [digits[0]] + digits[1..];
      OccursSplit(s, pos, [digits[0]], digits[1..]);
      assert s[pos] == s[pos..pos + |digits|][0];
      ReadDigits(s, pos + 1, digits[1..], tokens, num * 10 + DigitOf(digits[0]));
    }
  }

  lemma {:induction false} SkipBlanks(s: string, pos: nat, k: nat, tokens: Tokens, num: int)
    requires Occurs(s, pos, Blanks(k)) && num >= -1 && Settle(tokens, num).Some?
    ensures Help(s, pos, tokens, num)
         == (if k == 0 then Help(s, pos, tokens, num) else Help(s, pos + k, Settle(tokens, num).value, -1))
    decreases k
  {
    if k > 0 {
      OccursSplit(s, pos, " ", Blanks(k - 1));
      assert s[pos] == s[pos..pos + 1][0];
      SkipBlanks(s, pos + 1, k - 1, Settle(tokens, num).value, -1);
    }
  }

  lemma NumberOccurs(s: string, pos: nat, n: Number)
    requires Occurs(s, pos, NumberText(n))
    ensures Occurs(s, pos, Blanks(n.blanks)) && pos + n.blanks < |s| && s[pos + n.blanks] == First(n)
    ensures Occurs(s, pos + n.blanks + 1, More(n)) && |NumberText(n)| == n.blanks + 1 + |More(n)|
  {
    NumberParts(n);
    OccursParts(s, pos, Blanks(n.blanks), [First(n)], More(n));
    var p := pos + n.blanks;
    assert s[p] == s[p..p + 1][0];
  }

  lemma ReadNumber(s: string, pos: nat, n: Number, tokens: Tokens)
    requires Occurs(s, pos, NumberText(n))
    ensures Help(s, pos, tokens, -1) == Help(s, pos + |NumberText(n)|, tokens, n.value)
  {
    NumberOccurs(s, pos, n);
    SkipBlanks(s, pos, n.blanks, tokens, -1);
    var p := pos + n.blanks;
    ReadFirst(s, p, First(n), tokens);
    ReadDigits(s, p + 1, More(n), tokens, DigitOf(First(n)));
    ReadsNumber(n);
  }

  lemma ReadFirst(s: string, pos: nat, d: Digit, tokens: Tokens)
    requires pos < |s| && s[pos] == d
    ensures Help(s, pos, tokens, -1) == Help(s, pos + 1, tokens, DigitOf(d))
  {
  }

  lemma ReadOperator(s: string, pos: nat, k: nat, c: char, tokens: Tokens, num: int)
    requires Occurs(s, pos, Blanks(k) + [c]) && num >= -1 && Settle(tokens, num).Some? && (c == '+' || c == '-')
    ensures Help(s, pos, tokens, num) == Help(s, pos + k + 1, Settle(tokens, num).value + [c as int], -1)
  {
    OccursSplit(s, pos, Blanks(k), [c]);
    SkipBlanks(s, pos, k, tokens, num);
    assert s[pos + k] == s[pos + k..pos + k + 1][0];
  }

  // The end of a call, of value v.
  lemma ReadEnd(s: string, pos: nat, k: nat, tokens: Tokens, num: int, v: int)
    requires Occurs(s, pos, Blanks(k)) && num >= -1 && Settle(tokens, num) == Some([v])
    requires pos + k == |s| || s[pos + k] == ')'
    ensures Help(s, pos, tokens, num) == Done(v, pos + k)
  {
    SkipBlanks(s, pos, k, tokens, num);
  }

  // What stands before an item: nothing, or a value and an operator.
  predicate Open(tokens: Tokens) {
    tokens == [] || (|tokens| == 2 && (tokens[1] == ADD || tokens[1] == SUB))
  }

  function Combined(tokens: Tokens, v: int): int
    requires Open(tokens)
  {
    if tokens == [] then v else if tokens[1] == ADD then tokens[0] + v else tokens[0] - v
  }

  lemma PushCombines(tokens: Tokens, v: int)
    requires Open(tokens)
    ensures PlusMinus(tokens, v) == Some([Combined(tokens, v)])
  {
    assert tokens[..0] + [Combined(tokens, v)] == [Combined(tokens, v)];
  }

  // Tokens and pending number after an item.
  function TokensAfter(tokens: Tokens, i: Item): Tokens
    requires Open(tokens)
  {
    if i.Literal? then tokens else [Combined(tokens, ItemValue(i))]
  }

  function PendingAfter(i: Item): (num: int)
    ensures num >= -1
  {
    if i.Literal? then i.n.value else -1
  }

  lemma SettleAfter(tokens: Tokens, i: Item)
    requires Open(tokens)
    ensures Settle(TokensAfter(tokens, i), PendingAfter(i)) == Some([Combined(tokens, ItemValue(i))])
  {
    PushCombines(tokens, ItemValue(i));
  }

  function Before(e: Sum): (tokens: Tokens)
    ensures Open(tokens)
  {
    match e
    case Single(_) => []
    case Plus(l, _, _) => [SumValue(l), ADD]
    case Minus(l, _, _) => [SumValue(l), SUB]
  }

  function Last(e: Sum): Item {
    if e.Single? then e.i else e.right
  }

  // The call at a position in the state after e.
  function Continue(e: Sum, s: string, pos: nat): Outcome {
    Help(s, pos, TokensAfter(Before(e), Last(e)), PendingAfter(Last(e)))
  }

  lemma EndSum(s: string, pos: nat, k: nat, e: Sum)
    requires Occurs(s, pos, Blanks(k)) && (pos + k == |s| || s[pos + k] == ')')
    ensures Continue(e, s, pos) == Done(SumValue(e), pos + k)
  {
    SettleAfter(Before(e), Last(e));
    assert Combined(Before(e), ItemValue(Last(e))) == SumValue(e);
    ReadEnd(s, pos, k, TokensAfter(Before(e), Last(e)), PendingAfter(Last(e)), SumValue(e));
  }

  lemma {:induction false} ReadItem(s: string, pos: nat, i: Item, tokens: Tokens)
    requires Occurs(s, pos, ItemText(i)) && Open(tokens)
    ensures Help(s, pos, tokens, -1) == Help(s, pos + |ItemText(i)|, TokensAfter(tokens, i), PendingAfter(i))
    decreases i, 1
  {
    match i
    case Literal(n) => ReadNumber(s, pos, n, tokens);
    case Group(k, e, closing) =>
      OccursParts(s, pos, Blanks(k) + "(", SumText(e), Blanks(closing) + ")");
      ReadGroup(s, pos, i, tokens, pos + |ItemText(i)|);
  }

  lemma {:induction false} ReadGroup(s: string, pos: nat, i: Item, tokens: Tokens, end: nat)
    requires i.Group? && Open(tokens)
    requires Occurs(s, pos, Blanks(i.blanks) + "(") && Occurs(s, pos + i.blanks + 1, SumText(i.e))
    requires Occurs(s, pos + i.blanks + 1 + |SumText(i.e)|, Blanks(i.closing) + ")")
    requires end == pos + i.blanks + 1 + |SumText(i.e)| + i.closing + 1
    ensures Help(s, pos, tokens, -1) == Help(s, end, [Combined(tokens, SumValue(i.e))], -1)
    decreases i, 0
  {
    ReadOpening(s, pos, i, tokens);
    var p := pos + i.blanks + 1;
    ReadSum(s, p, i.e);
    ReadClosing(s, p + |SumText(i.e)|, i.e, i.closing);
    AfterCall(s, p, SumValue(i.e), p + |SumText(i.e)| + i.closing, tokens, end);
  }

  // Up to the call for what the parentheses enclose.
  lemma ReadOpening(s: string, pos: nat, i: Item, tokens: Tokens)
    requires i.Group? && Occurs(s, pos, Blanks(i.blanks) + "(")
    ensures Help(s, pos, tokens, -1) == HelpGroup(s, pos + i.blanks + 1, tokens)
  {
    OccursSplit(s, pos, Blanks(i.blanks), "(");
    SkipBlanks(s, pos, i.blanks, tokens, -1);
    var p := pos + i.blanks;
    assert s[p] == s[p..p + 1][0];
  }

  // Once that call has read the sum and returned.
  lemma ReadClosing(s: string, pos: nat, e: Sum, closing: nat)
    requires Occurs(s, pos, Blanks(closing) + ")")
    ensures Continue(e, s, pos) == Done(SumValue(e), pos + closing)
  {
    OccursSplit(s, pos, Blanks(closing), ")");
    assert s[pos + closing] == s[pos + closing..pos + closing + 1][0];
    EndSum(s, pos, closing, e);
  }

  lemma AfterCall(s: string, pos: nat, v: int, end: nat, tokens: Tokens, next: nat)
    requires pos <= |s| && Help(s, pos, [], -1) == Done(v, end) && Open(tokens) && next == end + 1
    ensures HelpGroup(s, pos, tokens) == Help(s, next, [Combined(tokens, v)], -1)
  {
    PushCombines(tokens, v);
  }

  // The operator of a sum, after its left part.
  function Tail(e: Sum): string
    requires !e.Single?
  {
    Blanks(e.blanks) + (if e.Plus? then "+" else "-")
  }

  lemma ReadTail(s: string, pos: nat, e: Sum)
    requires !e.Single? && Occurs(s, pos, Tail(e))
    ensures Continue(e.left, s, pos) == Help(s, pos + |Tail(e)|, Before(e), -1)
  {
    var left := e.left;
    var c := if e.Plus? then '+' else '-';
    SettleAfter(Before(left), Last(left));
    assert Combined(Before(left), ItemValue(Last(left))) == SumValue(left);
    ReadOperator(s, pos, e.blanks, c, TokensAfter(Before(left), Last(left)), PendingAfter(Last(left)));
    assert [SumValue(left)] + [c as int] == Before(e);
  }

  lemma {:induction false} ReadRight(s: string, pos: nat, e: Sum, end: nat)
    requires !e.Single? && Occurs(s, pos, Tail(e)) && Occurs(s, pos + |Tail(e)|, ItemText(e.right))
    requires end == pos + |Tail(e)| + |ItemText(e.right)|
    ensures Continue(e.left, s, pos) == Continue(e, s, end)
    decreases e, 0
  {
    ReadTail(s, pos, e);
    ReadItem(s, pos + |Tail(e)|, e.right, Before(e));
  }

  lemma SumParts(s: string, pos: nat, e: Sum)
    requires !e.Single? && Occurs(s, pos, SumText(e))
    ensures Occurs(s, pos, SumText(e.left)) && Occurs(s, pos + |SumText(e.left)|, Tail(e))
    ensures Occurs(s, pos + |SumText(e.left)| + |Tail(e)|, ItemText(e.right))
    ensures |SumText(e)| == |SumText(e.left)| + |Tail(e)| + |ItemText(e.right)|
  {
    var (left, tail, right) := (SumText(e.left), Tail(e), ItemText(e.right));
    assert SumText(e) == left + tail + right;
    OccursParts(s, pos, left, tail, right);
  }

  lemma {:induction false} ReadSingle(s: string, pos: nat, e: Sum)
    requires e.Single? && Occurs(s, pos, ItemText(e.i))
    ensures Help(s, pos, [], -1) == Continue(e, s, pos + |ItemText(e.i)|)
    decreases e, 0
  {
    ReadItem(s, pos, e.i, []);
  }

  // The call at pos arrives in the state after e at `end`.
  ghost predicate Arrives(s: string, pos: nat, e: Sum, end: nat) {
    Help(s, pos, [], -1) == Continue(e, s, end)
  }

  lemma {:induction false} ReadSum(s: string, pos: nat, e: Sum)
    requires Occurs(s, pos, SumText(e))
    ensures Arrives(s, pos, e, pos + |SumText(e)|)
    decreases e, 2
  {
    if e.Single? {
      ReadSingle(s, pos, e);
    } else {
      SumParts(s, pos, e);
      ReadSum(s, pos, e.left);
      ReadRest(s, pos, e, pos + |SumText(e.left)|, pos + |SumText(e)|);
    }
  }

  lemma {:induction false} ReadRest(s: string, pos: nat, e: Sum, middle: nat, end: nat)
    requires !e.Single? && Arrives(s, pos, e.left, middle)
    requires Occurs(s, middle, Tail(e)) && Occurs(s, middle + |Tail(e)|, ItemText(e.right))
    requires end == middle + |Tail(e)| + |ItemText(e.right)|
    ensures Arrives(s, pos, e, end)
    decreases e, 1
  {
    ReadRight(s, middle, e, end);
  }

  // The text of e and k blanks stand at this position, and then the text or the
  // parentheses around it end.
  ghost predicate Stands(s: string, pos: nat, e: Sum, k: nat) {
    var end := pos + |SumText(e)| + k;
    Occurs(s, pos, SumText(e) + Blanks(k)) && (end == |s| || s[end] == ')')
  }

  // A call where a sum stands returns its value and stops behind it.
  lemma CallReads(s: string, pos: nat, e: Sum, k: nat)
    requires Stands(s, pos, e, k)
    ensures Help(s, pos, [], -1) == Done(SumValue(e), pos + |SumText(e)| + k)
  {
    OccursSplit(s, pos, SumText(e), Blanks(k));
    ReadSum(s, pos, e);
    EndSum(s, pos + |SumText(e)|, k, e);
  }

  // Main result: whatever the blanks, the text of an expression is evaluated to
  // the expression's value.
  lemma TextEvaluates(e: Sum, trailing: nat)
    ensures var s := SumText(e) + Blanks(trailing);
      Help(s, 0, [], -1) == Done(SumValue(e), |s|)
  {
    var s := SumText(e) + Blanks(trailing);
    assert Stands(s, 0, e, trailing);
    CallReads(s, 0, e, trailing);
  }

  // One of the source's own examples.
  lemma Example()
    ensures Help("1 + 1", 0, [], -1) == Done(2, 5)
  {
    var e := Plus(Single(Literal(Number(0, 0, 1))), 1, Literal(Number(1, 0, 1)));
    TextEvaluates(e, 0);
    assert SumText(e) + Blanks(0) == "1 + 1";
  }

  // ----- the program

  class Calculator {
    var pos: nat

    constructor ()
      ensures pos == 0
    {
      pos := 0;
    }

    // The lambda plus_minus.
    method AddOrSubtract(tokens: Tokens, num: int) returns (tokens': Tokens)
      requires PlusMinus(tokens, num).Some?
      ensures Some(tokens') == PlusMinus(tokens, num)
    {
      tokens' := tokens;
      var num' := num;
      if |tokens'| > 0 {
        if tokens'[|tokens'| - 1] == ADD {
          tokens' := tokens'[..|tokens'| - 1];
          num' := num' + tokens'[|tokens'| - 1];
          tokens' := tokens'[..|tokens'| - 1];
        } else if tokens'[|tokens'| - 1] == SUB {
          tokens' := tokens'[..|tokens'| - 1];
          num' := tokens'[|tokens'| - 1] - num';
          tokens' := tokens'[..|tokens'| - 1];
        }
      }
      tokens' := tokens' + [num'];
      var n := |tokens|;
      assert n > 1 ==> tokens[..n - 1][..n - 2] == tokens[..n - 2];
    }

    // A pending number is pushed, as several cases of the loop do.
    method PushPending(tokens: Tokens, num: int) returns (tokens': Tokens, num': int)
      requires Settle(tokens, num).Some?
      ensures Some(tokens') == Settle(tokens, num) && num' == if num >= 0 then -1 else num
    {
      tokens', num' := tokens, num;
      if num >= 0 {
        tokens' := AddOrSubtract(tokens, num);
        num' := -1;
      }
    }

    // Stops behind the text or at the parenthesis that ends the call.
    method CalculateHelp(s: string) returns (v: int)
      requires Help(s, pos, [], -1).Done?
      modifies this
      ensures Help(s, old(pos), [], -1) == Done(v, pos)
      ensures forall e, k :: Stands(s, old(pos), e, k) ==> v == SumValue(e) && pos == old(pos) + |SumText(e)| + k
      decreases |s| - pos
    {
      forall e, k | Stands(s, pos, e, k)
        ensures Help(s, pos, [], -1) == Done(SumValue(e), pos + |SumText(e)| + k)
      {
        CallReads(s, pos, e, k);
      }
      ghost var outcome := Help(s, pos, [], -1);
      var tokens: Tokens, num := [], -1;
      while pos < |s|
        invariant pos >= old(pos) && Help(s, pos, tokens, num) == outcome
        decreases |s| - pos
      {
        if s[pos] == '+' || s[pos] == '-' {
          tokens, num := PushPending(tokens, num);
          tokens := tokens + [s[pos] as int];
        } else if s[pos] == '(' {
          pos := pos + 1;
          num := CalculateHelp(s);
          tokens := AddOrSubtract(tokens, num);
          num := -1;
        } else if s[pos] == ')' {
          tokens, num := PushPending(tokens, num);
          assert |tokens| == 1;
          return tokens[|tokens| - 1];
        } else if s[pos] == ' ' {
          tokens, num := PushPending(tokens, num);
        } else {
          if num < 0 { num := 0; }
          num := num * 10 + DigitOf(s[pos]);
        }
        pos := pos + 1;
      }
      tokens, num := PushPending(tokens, num);
      return tokens[|tokens| - 1];
    }

    method Calculate(s: string, ghost e: Sum, ghost trailing: nat) returns (v: int)
      requires s == SumText(e) + Blanks(trailing)
      modifies this
      ensures v == SumValue(e)
    {
      pos := 0;
      TextEvaluates(e, trailing);
      assert Stands(s, 0, e, trailing);
      v := CalculateHelp(s);
    }
  }
}
