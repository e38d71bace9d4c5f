/** The question generator of MathQuiz.tsx. Every call of `Math.random()` consumes the next
    value of an explicit list of draws; a list that runs dry yields `OutOfDraws`, which the
    source, with an endless supply of random numbers, never sees. */
module QuizGen {
  import opened Wrappers
  import opened JsText

  /** A value `Math.random()` may return. */
  type Draw = r: real | 0.0 <= r < 1.0

  /** `Math.floor(Math.random() * n)`: a uniform index below `n`. */
  function Pick(d: Draw, n: nat): (k: int)
    requires n > 0
    ensures 0 <= k < n
  {
    PickBelow(d, n);
    (d * n as real).Floor
  }

  lemma PickBelow(d: Draw, n: nat)
    requires n > 0
    ensures 0.0 <= d * n as real < n as real
  {
    var m := n as real;
    assert m - d * m == (1.0 - d) * m;
    assert (1.0 - d) * m > 0.0;
  }

  /** `Math.round`: the nearest integer, halves rounded up. */
  function JsRound(x: real): (r: int)
    ensures x - 0.5 < r as real <= x + 0.5
  {
    (x + 0.5).Floor
  }

  predicate Distinct<T(==)>(s: seq<T>) {
    forall i, j :: 0 <= i < j < |s| ==> s[i] != s[j]
  }

  // ---------------------------------------------------------------------------
  // Arithmetic operands
  // ---------------------------------------------------------------------------

  datatype Operator = Add | Sub | Mul | Div

  function Symbol(o: Operator): string {
    match o
    case Add => "+"
    case Sub => "-"
    case Mul => "\U{00D7}"
    case Div => "\U{00F7}"
  }

  function OperatorName(o: Operator): string {
    match o
    case Add => "addition"
    case Sub => "subtraction"
    case Mul => "multiplication"
    case Div => "division"
  }

  const Operators: seq<Operator> := [Add, Sub, Mul, Div]

  function OperatorAt(d: Draw): Operator {
    Operators[Pick(d, |Operators|)]
  }

  datatype Operands = Operands(num1: int, num2: int, answer: int)

  /** The operands drawn for operator `o` from two draws, in the order the source draws
      them: for division the divisor and the quotient, so the division is exact. */
  function ArithOperands(o: Operator, d1: Draw, d2: Draw): (p: Operands)
    ensures o == Add ==> 1 <= p.num1 <= 50 && 1 <= p.num2 <= 50 && p.answer == p.num1 + p.num2
    ensures o == Sub ==> 25 <= p.num1 <= 74 && 1 <= p.num2 <= 25 && p.answer == p.num1 - p.num2
    ensures o == Mul ==> 1 <= p.num1 <= 12 && 1 <= p.num2 <= 12 && p.answer == p.num1 * p.num2
    ensures o == Div ==> 1 <= p.num2 <= 12 && 1 <= p.answer <= 12 && p.num1 == p.num2 * p.answer
    ensures p.answer >= 0
  {
    match o
    case Add => var a := Pick(d1, 50) + 1; var b := Pick(d2, 50) + 1; Operands(a, b, a + b)
    case Sub => var a := Pick(d1, 50) + 25; var b := Pick(d2, 25) + 1; Operands(a, b, a - b)
    case Mul =>
      var a := Pick(d1, 12) + 1;
      var b := Pick(d2, 12) + 1;
      ProductPositive(a, b);
      Operands(a, b, a * b)
    case Div =>
      var b := Pick(d1, 12) + 1;
      var q := Pick(d2, 12) + 1;
      Operands(b * q, b, q)
  }

  lemma ProductPositive(a: int, b: int)
    requires a >= 1 && b >= 1
    ensures a * b >= 1
  {
    assert a * b == a * (b - 1) + a;
    assert a * (b - 1) >= 0;
  }

  /** The text of an arithmetic question, e.g. "7 + 5 = ?". */
  function ArithText(o: Operator, p: Operands): string {
    IntToString(p.num1) + " " + Symbol(o) + " " + IntToString(p.num2) + " = ?"
  }

  // ---------------------------------------------------------------------------
  // Geometry figures (the branches whose answer is a whole number)
  // ---------------------------------------------------------------------------

  datatype ShapeType = Triangle | Rectangle
  datatype Measure = Area | Perimeter

  function ShapeWord(s: ShapeType): string {
    match s
    case Triangle => "triangle"
    case Rectangle => "rectangle"
  }

  function MeasureWord(m: Measure): string {
    match m
    case Area => "area"
    case Perimeter => "perimeter"
  }

  datatype Figure = Figure(shape: ShapeType, measure: Measure, dimensions: seq<int>)

  /** A figure and the number of draws it took: the shape, the measure, then each
      dimension. `None` when the draws run out. */
  function GeoFigure(ds: seq<Draw>): (r: Option<(Figure, nat)>)
    ensures r.Some? ==> 4 <= r.value.1 <= 5 && r.value.1 <= |ds|
    ensures r.Some? ==> ValidFigure(r.value.0)
    ensures |ds| >= 5 ==> r.Some?
  {
    if |ds| < 4 then None
    else
      var shape := [Triangle, Rectangle][Pick(ds[0], 2)];
      var measure := [Area, Perimeter][Pick(ds[1], 2)];
      match shape
      case Triangle =>
        if measure == Area then
          Some((Figure(Triangle, Area, [Pick(ds[2], 10) + 3, Pick(ds[3], 8) + 3]), 4))
        else if |ds| < 5 then None
        else
          Some((Figure(Triangle, Perimeter,
                       [Pick(ds[2], 8) + 4, Pick(ds[3], 8) + 4, Pick(ds[4], 8) + 4]), 5))
      case Rectangle =>
        Some((Figure(Rectangle, measure, [Pick(ds[2], 8) + 4, Pick(ds[3], 6) + 3]), 4))
  }

  /** The dimension ranges of each figure: a triangle's base in [3,12] and height in [3,10],
      its sides in [4,11]; a rectangle's length in [4,11] and width in [3,8]. */
  predicate ValidFigure(f: Figure) {
    match (f.shape, f.measure)
    case (Triangle, Area) =>
      |f.dimensions| == 2 && 3 <= f.dimensions[0] <= 12 && 3 <= f.dimensions[1] <= 10
    case (Triangle, Perimeter) =>
      |f.dimensions| == 3 && forall i :: 0 <= i < 3 ==> 4 <= f.dimensions[i] <= 11
    case (Rectangle, _) =>
      |f.dimensions| == 2 && 4 <= f.dimensions[0] <= 11 && 3 <= f.dimensions[1] <= 8
  }

  /** The answer to a figure's question when it is a whole number: a triangle's area
      base·height/2 is whole only for an even product; `None` stands for the fractional
      answers, which this model leaves out. */
  function FigureAnswer(f: Figure): (r: Option<int>)
    requires ValidFigure(f)
    ensures f.shape == Rectangle && f.measure == Area ==>
              r == Some(f.dimensions[0] * f.dimensions[1])
    ensures f.shape == Rectangle && f.measure == Perimeter ==>
              r == Some(2 * (f.dimensions[0] + f.dimensions[1]))
    ensures f.shape == Triangle && f.measure == Perimeter ==>
              r == Some(f.dimensions[0] + f.dimensions[1] + f.dimensions[2])
    ensures f.shape == Triangle && f.measure == Area ==>
              (r.Some? <==> (f.dimensions[0] * f.dimensions[1]) % 2 == 0)
              && (r.Some? ==> 2 * r.value == f.dimensions[0] * f.dimensions[1])
    ensures r.Some? ==> r.value >= 6
  {
    var d := f.dimensions;
    match (f.shape, f.measure)
    case (Triangle, Area) => if (d[0] * d[1]) % 2 == 0 then Some(d[0] * d[1] / 2) else None
    case (Triangle, Perimeter) => Some(d[0] + d[1] + d[2])
    case (Rectangle, Area) => Some(d[0] * d[1])
    case (Rectangle, Perimeter) => Some(2 * (d[0] + d[1]))
  }

  function GeoText(f: Figure): string {
    "What is the " + MeasureWord(f.measure) + " of this " + ShapeWord(f.shape) + "?"
  }

  function GeoOperation(f: Figure): string {
    "geometry-" + ShapeWord(f.shape) + "-" + MeasureWord(f.measure)
  }

  // ---------------------------------------------------------------------------
  // Wrong answers
  // ---------------------------------------------------------------------------

  /** How a wrong-answer candidate is drawn: around an arithmetic answer by operator, or
      around a whole geometry answer by its size. */
  datatype Rule = ArithRule(op: Operator) | GeoRule

  /** One candidate wrong answer. The multiplication branch of the source draws exactly
      like the addition and subtraction branch. `Math.round` of a whole arithmetic
      candidate is the candidate itself. */
  function Candidate(rule: Rule, c: int, d: Draw): (w: int)
    ensures rule == ArithRule(Div) ==> c - 5 <= w <= c + 4
    ensures rule.ArithRule? && rule.op != Div ==> c - 10 <= w <= c + 9
    ensures rule == GeoRule && c < 10 ==> c - 3 <= w <= c + 3
    ensures rule == GeoRule && 10 <= c < 50 ==> c - 10 <= w <= c + 10
    ensures rule == GeoRule && 50 <= c ==> c - 20 <= w <= c + 20
  {
    match rule
    case ArithRule(op) =>
      if op == Div then c + Pick(d, 10) - 5 else c + Pick(d, 20) - 10
    case GeoRule =>
      if c < 10 then JsRound(c as real + (d * 6.0 - 3.0))
      else if c < 50 then JsRound(c as real + (d * 20.0 - 10.0))
      else JsRound(c as real + (d * 40.0 - 20.0))
  }

  /** The acceptance test of the loop: a candidate joins when it is positive, differs from
      the correct answer and was not accepted before. */
  function Accept(correct: int, acc: seq<int>, w: int): seq<int> {
    if w != correct && w > 0 && w !in acc then acc + [w] else acc
  }

  /** The wrong answers accepted from the candidates drawn with `ds`, in order: a reference
      definition of the loop without its stopping rule. */
  function Accepted(correct: int, rule: Rule, ds: seq<Draw>): (acc: seq<int>)
    ensures |acc| <= |ds|
    ensures forall i :: 0 <= i < |acc| ==> acc[i] > 0 && acc[i] != correct
    ensures Distinct(acc)
  {
    if |ds| == 0 then []
    else Accept(correct, Accepted(correct, rule, ds[..|ds| - 1]), Candidate(rule, correct, ds[|ds| - 1]))
  }

  /** Drawing more candidates never loses an accepted one. */
  lemma {:induction false} AcceptedGrows(correct: int, rule: Rule, ds: seq<Draw>, k: nat)
    requires k <= |ds|
    ensures |Accepted(correct, rule, ds[..k])| <= |Accepted(correct, rule, ds)|
    decreases |ds| - k
  {
    if k < |ds| {
      var ds' := ds[..|ds| - 1];
      assert ds'[..k] == ds[..k];
      AcceptedGrows(correct, rule, ds', k);
    } else {
      assert ds[..k] == ds;
    }
  }

  /** The loop `while (wrongAnswers.size < 3)`: draws candidates until three are accepted
      or the draws run out. It stops at the first draw that completes the three. */
  method CollectDistractors(correct: int, rule: Rule, draws: seq<Draw>)
    returns (wrong: seq<int>, used: nat)
    ensures used <= |draws|
    ensures wrong == Accepted(correct, rule, draws[..used])
    ensures |wrong| == 3 || (|wrong| < 3 && used == |draws|)
    ensures used > 0 ==> |Accepted(correct, rule, draws[..used - 1])| < 3
  {
    wrong := [];
    used := 0;
    while |wrong| < 3 && used < |draws|
      invariant used <= |draws|
      invariant wrong == Accepted(correct, rule, draws[..used])
      invariant |wrong| <= 3
      invariant used > 0 ==> |Accepted(correct, rule, draws[..used - 1])| < 3
    {
      var w := Candidate(rule, correct, draws[used]);
      AcceptedStep(correct, rule, draws, used);
      if w != correct && w > 0 && w !in wrong {
        wrong := wrong + [w];
      }
      used := used + 1;
    }
  }

  /** One more draw offers one more candidate to the accepted list. */
  lemma AcceptedStep(correct: int, rule: Rule, draws: seq<Draw>, n: nat)
    requires n < |draws|
    ensures Accepted(correct, rule, draws[..n + 1])
            == Accept(correct, Accepted(correct, rule, draws[..n]), Candidate(rule, correct, draws[n]))
  {
    assert draws[..n + 1][..n] == draws[..n];
  }

  /** When the draws hold three acceptable candidates, the loop collects them. */
  lemma CollectsWhenAvailable(correct: int, rule: Rule, draws: seq<Draw>, used: nat, k: nat)
    requires used <= |draws| && k <= |draws|
    requires used > 0 ==> |Accepted(correct, rule, draws[..used - 1])| < 3
    requires |Accepted(correct, rule, draws[..k])| >= 3
    ensures used <= k
  {
    if used > k {
      assert draws[..used - 1][..k] == draws[..k];
      AcceptedGrows(correct, rule, draws[..used - 1], k);
    }
  }

  // ---------------------------------------------------------------------------
  // Shuffle and lookup
  // ---------------------------------------------------------------------------

  /** The Fisher-Yates pass: for i from the last index down to 1, swap entry i with a
      uniformly drawn entry j <= i. Consumes one draw per swap. */
  method Shuffle<T>(xs: seq<T>, draws: seq<Draw>) returns (ys: seq<T>)
    requires |draws| >= |xs| - 1
    ensures |ys| == |xs|
    ensures multiset(ys) == multiset(xs)
  {
    ys := xs;
    var i := |xs| - 1;
    while i > 0
      invariant -1 <= i < |xs|
      invariant |ys| == |xs|
      invariant multiset(ys) == multiset(xs)
    {
      var j := Pick(draws[|xs| - 1 - i], i + 1);
      var a, b := ys[i], ys[j];
      ys := ys[i := b][j := a];
      i := i - 1;
    }
  }

  /** `Array.prototype.indexOf`: the first position holding `x`, or -1. */
  function IndexOf<T(==)>(s: seq<T>, x: T): (k: int)
    ensures -1 <= k < |s|
    ensures k == -1 <==> x !in s
    ensures k >= 0 ==> s[k] == x && forall j :: 0 <= j < k ==> s[j] != x
  {
    if |s| == 0 then -1
    else if s[0] == x then 0
    else
      var k := IndexOf(s[1..], x);
      if k == -1 then -1 else k + 1
  }

  /** In a sequence without repeats each value occurs at most once. */
  lemma {:induction false} DistinctCountsOnce<T>(s: seq<T>, x: T)
    requires Distinct(s)
    ensures multiset(s)[x] <= 1
  {
    if |s| > 0 {
      assert s == [s[0]] + s[1..];
      assert Distinct(s[1..]);
      DistinctCountsOnce(s[1..], x);
      if x == s[0] {
        assert x !in s[1..];
      }
    }
  }

  /** Two positions of a sequence whose value occurs at most once hold different values. */
  lemma PositionsOfSingleValue<T>(s: seq<T>, i: int, j: int)
    requires 0 <= i < j < |s|
    requires multiset(s)[s[j]] <= 1
    ensures s[i] != s[j]
  {
    assert s == s[..j] + [s[j]] + s[j + 1..];
    assert multiset(s)[s[j]] == multiset(s[..j])[s[j]] + 1 + multiset(s[j + 1..])[s[j]];
    assert s[..j][i] == s[i];
  }

  /** A permutation of a sequence without repeats has no repeats. */
  lemma DistinctPermutation<T>(a: seq<T>, b: seq<T>)
    requires multiset(a) == multiset(b) && Distinct(a)
    ensures Distinct(b)
  {
    forall i, j | 0 <= i < j < |b|
      ensures b[i] != b[j]
    {
      DistinctCountsOnce(a, b[j]);
      PositionsOfSingleValue(b, i, j);
    }
  }

  // ---------------------------------------------------------------------------
  // Options of a question
  // ---------------------------------------------------------------------------

  /** The decimal strings of integers, in order. */
  function Numerals(ws: seq<int>): (r: seq<string>)
    ensures |r| == |ws|
    ensures forall i :: 0 <= i < |ws| ==> r[i] == IntToString(ws[i])
  {
    seq(|ws|, i requires 0 <= i < |ws| => IntToString(ws[i]))
  }

  /** `s` is what `toString` prints for the integer `parseInt` reads from it. */
  predicate IsNumeral(s: string) {
    ParseInt(s).Some? && IntToString(ParseInt(s).value) == s
  }

  /** The options of a question: four distinct numerals, the one at `correctIndex` the
      correct answer, every other one a positive integer other than the correct answer. */
  predicate WellFormedOptions(options: seq<string>, correctIndex: int, correct: int) {
    && |options| == 4
    && Distinct(options)
    && 0 <= correctIndex < 4
    && options[correctIndex] == IntToString(correct)
    && (forall k :: 0 <= k < 4 && k != correctIndex ==>
          IsNumeral(options[k]) && ParseInt(options[k]).value > 0
          && ParseInt(options[k]).value != correct)
  }

  datatype Built = Built(options: seq<string>, correctIndex: int, wrong: seq<int>, used: nat)

  /** The correct numeral and the numerals of three accepted wrong answers are four distinct
      strings. */
  lemma InitialOptionsDistinct(correct: int, wrong: seq<int>)
    requires |wrong| == 3 && Distinct(wrong)
    requires forall i :: 0 <= i < 3 ==> wrong[i] != correct
    ensures Distinct([IntToString(correct)] + Numerals(wrong))
  {
    var initial := [IntToString(correct)] + Numerals(wrong);
    forall i, j | 0 <= i < j < 4
      ensures initial[i] != initial[j]
    {
      if i == 0 {
        IntToStringInjective(correct, wrong[j - 1]);
      } else {
        IntToStringInjective(wrong[i - 1], wrong[j - 1]);
      }
    }
  }

  /** After the shuffle, every option other than the correct one is the numeral of a
      positive wrong answer. */
  lemma ShuffledWrongOptions(correct: int, wrong: seq<int>, shuffled: seq<string>, idx: int)
    requires |wrong| == 3
    requires forall i :: 0 <= i < 3 ==> wrong[i] > 0 && wrong[i] != correct
    requires multiset(shuffled) == multiset([IntToString(correct)] + Numerals(wrong))
    requires |shuffled| == 4 && 0 <= idx < 4 && Distinct(shuffled)
    requires shuffled[idx] == IntToString(correct)
    ensures forall k :: 0 <= k < 4 && k != idx ==>
              IsNumeral(shuffled[k]) && ParseInt(shuffled[k]).value > 0
              && ParseInt(shuffled[k]).value != correct
  {
    var initial := [IntToString(correct)] + Numerals(wrong);
    forall k | 0 <= k < 4 && k != idx
      ensures IsNumeral(shuffled[k]) && ParseInt(shuffled[k]).value > 0
              && ParseInt(shuffled[k]).value != correct
    {
      assert shuffled[k] in multiset(initial);
      var m :| 0 <= m < 4 && initial[m] == shuffled[k];
      assert m != 0;
      ParseIntOfIntToString(wrong[m - 1]);
    }
  }

  /** The tail shared by both generators: the correct answer's string first, then three
      accepted wrong answers, a Fisher-Yates shuffle, and the index of the correct string. */
  method BuildOptions(correct: int, rule: Rule, draws: seq<Draw>) returns (r: Option<Built>)
    ensures r.Some? ==> 3 <= r.value.used <= |draws|
    ensures r.Some? ==> WellFormedOptions(r.value.options, r.value.correctIndex, correct)
    ensures r.Some? ==> |r.value.wrong| == 3
                        && r.value.wrong == Accepted(correct, rule, draws[..r.value.used - 3])
                        && multiset(r.value.options)
                           == multiset([IntToString(correct)] + Numerals(r.value.wrong))
    ensures r.Some? ==> forall k :: 0 <= k < 4 && r.value.options[k] == IntToString(correct)
                                    ==> k == r.value.correctIndex
    ensures |draws| >= 3 && |Accepted(correct, rule, draws[..|draws| - 3])| >= 3 ==> r.Some?
  {
    var wrong, used := CollectDistractors(correct, rule, draws);
    if |draws| >= 3 && |Accepted(correct, rule, draws[..|draws| - 3])| >= 3 {
      CollectsWhenAvailable(correct, rule, draws, used, |draws| - 3);
    }
    if |wrong| < 3 || |draws| - used < 3 {
      return None;
    }
    var v := IntToString(correct);
    var initial := [v] + Numerals(wrong);
    InitialOptionsDistinct(correct, wrong);
    var shuffled := Shuffle(initial, draws[used..]);
    DistinctPermutation(initial, shuffled);
    assert v in multiset(shuffled) by { assert initial[0] == v; }
    var idx := IndexOf(shuffled, v);
    ShuffledWrongOptions(correct, wrong, shuffled, idx);
    assert WellFormedOptions(shuffled, idx, correct);
    assert draws[..used + 3 - 3] == draws[..used];
    r := Some(Built(shuffled, idx, wrong, used + 3));
  }

  // ---------------------------------------------------------------------------
  // Questions
  // ---------------------------------------------------------------------------

  datatype Kind = Arithmetic | Geometry

  datatype Shape = Shape(shapeType: ShapeType, dimensions: seq<int>)

  /** A generated question. `id` is the draw the source uses as its identifier. */
  datatype Question = Question(
    id: real,
    text: string,
    options: seq<string>,
    correctAnswer: int,
    operation: string,
    kind: Kind,
    shape: Option<Shape>)

  datatype Outcome =
    | Generated(question: Question, answer: int, used: nat)
    | OutOfDraws
    | FractionalAnswer

  /** `generateArithmeticQuestion`: operator, two operands, the options, one draw for the
      id. */
  method GenerateArithmetic(draws: seq<Draw>) returns (r: Outcome)
    ensures !r.FractionalAnswer?
    ensures r.Generated? ==> r.used <= |draws| && r.question.kind == Arithmetic
                             && r.question.shape == None
    ensures r.Generated? ==>
              WellFormedOptions(r.question.options, r.question.correctAnswer, r.answer)
    ensures r.Generated? ==>
              |draws| >= 3
              && var o := OperatorAt(draws[0]);
                 var p := ArithOperands(o, draws[1], draws[2]);
                 r.answer == p.answer && r.question.text == ArithText(o, p)
                 && r.question.operation == OperatorName(o)
    ensures |draws| >= 7 ==>
              var o := OperatorAt(draws[0]);
              var p := ArithOperands(o, draws[1], draws[2]);
              |Accepted(p.answer, ArithRule(o), draws[3..|draws| - 4])| >= 3 ==> r.Generated?
  {
    if |draws| < 3 {
      return OutOfDraws;
    }
    var o := OperatorAt(draws[0]);
    var p := ArithOperands(o, draws[1], draws[2]);
    var rest := draws[3..];
    if |draws| >= 7 {
      assert rest[..|rest| - 1][..|rest| - 1 - 3] == draws[3..|draws| - 4];
    }
    if |rest| == 0 {
      return OutOfDraws;
    }
    var b := BuildOptions(p.answer, ArithRule(o), rest[..|rest| - 1]);
    if b.None? {
      return OutOfDraws;
    }
    var q := Question(rest[b.value.used], ArithText(o, p), b.value.options,
                      b.value.correctIndex, OperatorName(o), Arithmetic, None);
    r := Generated(q, p.answer, 3 + b.value.used + 1);
  }

  /** `generateGeometryQuestion`, for the figures whose answer is a whole number. */
  method GenerateGeometry(draws: seq<Draw>) returns (r: Outcome)
    ensures r.Generated? ==> r.used <= |draws| && r.question.kind == Geometry
    ensures r.Generated? ==>
              WellFormedOptions(r.question.options, r.question.correctAnswer, r.answer)
    ensures r.Generated? ==>
              GeoFigure(draws).Some?
              && var f := GeoFigure(draws).value.0;
                 FigureAnswer(f) == Some(r.answer)
                 && r.question.shape == Some(Shape(f.shape, f.dimensions))
                 && r.question.text == GeoText(f) && r.question.operation == GeoOperation(f)
    ensures r.FractionalAnswer? <==>
              GeoFigure(draws).Some? && FigureAnswer(GeoFigure(draws).value.0).None?
  {
    var g := GeoFigure(draws);
    if g.None? {
      return OutOfDraws;
    }
    var (f, n) := g.value;
    var answer := FigureAnswer(f);
    if answer.None? {
      return FractionalAnswer;
    }
    var rest := draws[n..];
    if |rest| == 0 {
      return OutOfDraws;
    }
    var b := BuildOptions(answer.value, GeoRule, rest[..|rest| - 1]);
    if b.None? {
      return OutOfDraws;
    }
    var q := Question(rest[b.value.used], GeoText(f), b.value.options, b.value.correctIndex,
                      GeoOperation(f), Geometry, Some(Shape(f.shape, f.dimensions)));
    r := Generated(q, answer.value, n + b.value.used + 1);
  }

  datatype Mode = Mixed | ArithmeticOnly | GeometryOnly

  /** `generateQuestion`: mixed mode takes geometry when its first draw exceeds 0.5. */
  method GenerateQuestion(mode: Mode, draws: seq<Draw>) returns (r: Outcome)
    ensures r.Generated? ==> r.used <= |draws|
    ensures r.Generated? ==>
              WellFormedOptions(r.question.options, r.question.correctAnswer, r.answer)
    ensures r.Generated? && mode == ArithmeticOnly ==> r.question.kind == Arithmetic
    ensures r.Generated? && mode == GeometryOnly ==> r.question.kind == Geometry
    ensures r.Generated? && mode == Mixed ==>
              |draws| > 0 && (r.question.kind == Geometry <==> draws[0] > 0.5)
  {
    match mode
    case ArithmeticOnly => r := GenerateArithmetic(draws);
    case GeometryOnly => r := GenerateGeometry(draws);
    case Mixed =>
      if |draws| == 0 {
        return OutOfDraws;
      }
      var rest;
      if draws[0] > 0.5 {
        rest := GenerateGeometry(draws[1..]);
      } else {
        rest := GenerateArithmetic(draws[1..]);
      }
      r := if rest.Generated? then rest.(used := rest.used + 1) else rest;
  }

  // ---------------------------------------------------------------------------
  // The candidate pool never runs short
  // ---------------------------------------------------------------------------

  /** Three draws whose candidates are c+1, c+2 and c+3 are all accepted. */
  lemma {:induction false} ThreeAboveAccepted(c: int, rule: Rule, ds: seq<Draw>)
    requires c >= 0 && |ds| == 3
    requires Candidate(rule, c, ds[0]) == c + 1
    requires Candidate(rule, c, ds[1]) == c + 2
    requires Candidate(rule, c, ds[2]) == c + 3
    ensures |Accepted(c, rule, ds)| == 3
  {
    var empty := ds[..0];
    assert Accepted(c, rule, empty) == [];
    AcceptedStep(c, rule, ds, 0);
    var one := Accepted(c, rule, ds[..1]);
    assert one == Accept(c, [], c + 1) == [c + 1];
    AcceptedStep(c, rule, ds, 1);
    var two := Accepted(c, rule, ds[..2]);
    assert two == Accept(c, one, c + 2) == [c + 1, c + 2];
    AcceptedStep(c, rule, ds, 2);
    assert ds[..3] == ds;
    assert Accepted(c, rule, ds) == Accept(c, two, c + 3);
  }

  /** For every arithmetic answer the generator can produce, three draws exist whose
      candidates are all accepted, so the source's loop can always finish. */
  lemma ArithPoolSuffices(o: Operator, c: int)
    requires c >= 0
    ensures exists ds: seq<Draw> :: |ds| == 3 && |Accepted(c, ArithRule(o), ds)| == 3
  {
    var ds: seq<Draw> := if o == Div then [0.6, 0.7, 0.8] else [0.55, 0.6, 0.65];
    assert Candidate(ArithRule(o), c, ds[0]) == c + 1;
    assert Candidate(ArithRule(o), c, ds[1]) == c + 2;
    assert Candidate(ArithRule(o), c, ds[2]) == c + 3;
    ThreeAboveAccepted(c, ArithRule(o), ds);
  }

  /** For every whole geometry answer, likewise. */
  lemma GeoPoolSuffices(c: int)
    requires c >= 1
    ensures exists ds: seq<Draw> :: |ds| == 3 && |Accepted(c, GeoRule, ds)| == 3
  {
    var ds: seq<Draw> :=
      if c < 10 then [0.6, 0.8, 0.98]
      else if c < 50 then [0.55, 0.6, 0.65]
      else [0.525, 0.55, 0.575];
    assert Candidate(GeoRule, c, ds[0]) == c + 1;
    assert Candidate(GeoRule, c, ds[1]) == c + 2;
    assert Candidate(GeoRule, c, ds[2]) == c + 3;
    ThreeAboveAccepted(c, GeoRule, ds);
  }
}
