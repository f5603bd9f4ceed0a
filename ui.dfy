/**
 * The console UI of the package (`variable2static/lib/ui.py`): the font-selection
 * expression (`select_fonts`) and the overwrite prompt (`get_overwrite_choice`).
 * Console lines are given as strings; what the UI prints is not modelled.
 */
module Ui {
  import opened Wrappers
  import opened PyStr

  // ===========================================================================
  // The selection expression: comma-separated `n` and `n-m` tokens

  /** One token: a single number, or a range with its bounds as written. */
  datatype Token = Single(n: nat) | Span(start: nat, end: nat)

  /**
   * How the loop body reads one token: with a `-` it must split into exactly two
   * `int`s (more pieces fail to unpack, an empty or non-digit piece fails `int`);
   * without one it is a single `int`.
   */
  function ParseToken(part: string): Option<Token>
  {
    if '-' in part then
      var pieces := Split(part, '-');
      if |pieces| != 2 then None
      else
        match (ParseNat(pieces[0]), ParseNat(pieces[1]))
        case (Some(a), Some(b)) => Some(Span(a, b))
        case _ => None
    else
      match ParseNat(part)
      case Some(n) => Some(Single(n))
      case None => None
  }

  /** The integers a token stands for; a range is swapped into order first. */
  function Members(t: Token): set<int>
  {
    match t
    case Single(n) => {n}
    case Span(a, b) => if a <= b then SetOf(Interval(a, b)) else SetOf(Interval(b, a))
  }

  /** A range `n-m` contributes exactly the integers from min(n, m) to max(n, m). */
  lemma SpanMembers(a: nat, b: nat, k: int)
    ensures k in Members(Span(a, b)) <==> (if a <= b then a <= k <= b else b <= k <= a)
  {
    if a <= b {
      assert k in Interval(a, b) <==> a <= k <= b;
    } else {
      assert k in Interval(b, a) <==> b <= k <= a;
    }
  }

  /** Every part parsed as a token, or None as soon as one part fails. */
  function ParseTokens(parts: seq<string>): Option<seq<Token>>
  {
    if parts == [] then Some([])
    else
      match ParseTokens(parts[..|parts| - 1])
      case None => None
      case Some(ts) =>
        match ParseToken(parts[|parts| - 1])
        case None => None
        case Some(t) => Some(ts + [t])
  }

  /** The integers the tokens stand for, together. */
  function Union(ts: seq<Token>): set<int>
  {
    if ts == [] then {} else Union(ts[..|ts| - 1]) + Members(ts[|ts| - 1])
  }

  /** The meaning of a selection line: spaces removed, split on `,`, every token parsed. */
  function ParseSelection(line: string): Option<set<int>>
  {
    match ParseTokens(Split(RemoveSpaces(line), ','))
    case None => None
    case Some(ts) => Some(Union(ts))
  }

  /** A failure on a prefix of the parts is a failure of the whole list. */
  lemma {:induction false} FailureOfPrefix(parts: seq<string>, k: nat)
    requires k <= |parts|
    requires ParseTokens(parts[..k]).None?
    ensures ParseTokens(parts).None?
  {
    if k < |parts| {
      var init := parts[..|parts| - 1];
      assert init[..k] == parts[..k];
      FailureOfPrefix(init, k);
    } else {
      assert parts[..k] == parts;
    }
  }

  /** On success there is one token per part, each the parse of its part. */
  lemma TokensOfParts(parts: seq<string>, ts: seq<Token>)
    requires ParseTokens(parts) == Some(ts)
    ensures |ts| == |parts|
    ensures forall j :: 0 <= j < |parts| ==> ParseToken(parts[j]) == Some(ts[j])
  {
    TokensLength(parts, ts);
    forall j | 0 <= j < |parts| ensures ParseToken(parts[j]) == Some(ts[j]) {
      TokenAt(parts, ts, j);
    }
  }

  /** A successful parse has one token per part. */
  lemma {:induction false} TokensLength(parts: seq<string>, ts: seq<Token>)
    requires ParseTokens(parts) == Some(ts)
    ensures |ts| == |parts|
  {
    if parts != [] {
      LastToken(parts, ts);
      TokensLength(parts[..|parts| - 1], ts[..|ts| - 1]);
    }
  }

  /** The token at position `j` of a successful parse is the parse of part `j`. */
  lemma {:induction false} TokenAt(parts: seq<string>, ts: seq<Token>, j: nat)
    requires ParseTokens(parts) == Some(ts) && j < |parts|
    ensures j < |ts| && ParseToken(parts[j]) == Some(ts[j])
  {
    var init, ts0 := parts[..|parts| - 1], ts[..|ts| - 1];
    LastToken(parts, ts);
    if j < |init| {
      TokenAt(init, ts0, j);
      assert parts[j] == init[j] && ts[j] == ts0[j];
    } else {
      TokensLength(parts, ts);
      assert j == |parts| - 1 && j == |ts| - 1;
    }
  }

  /** A successful parse ends with the token of the last part. */
  lemma LastToken(parts: seq<string>, ts: seq<Token>)
    requires parts != [] && ParseTokens(parts) == Some(ts)
    ensures ts != [] && ParseTokens(parts[..|parts| - 1]) == Some(ts[..|ts| - 1])
    ensures ParseToken(parts[|parts| - 1]) == Some(ts[|ts| - 1])
  {
    var ts0, t := ParseTokens(parts[..|parts| - 1]).value, ParseToken(parts[|parts| - 1]).value;
    assert ts == ts0 + [t];
    assert ts[..|ts| - 1] == ts0;
  }

  /** The whole line fails exactly when some part fails: there is no partial selection. */
  lemma {:induction false} FailsIffSomePartFails(parts: seq<string>)
    ensures ParseTokens(parts).None? <==> exists j :: 0 <= j < |parts| && ParseToken(parts[j]).None?
  {
    if parts != [] {
      var init, last := parts[..|parts| - 1], |parts| - 1;
      FailsIffSomePartFails(init);
      if ParseTokens(init).None? {
        var j :| 0 <= j < |init| && ParseToken(init[j]).None?;
        assert parts[j] == init[j];
      } else if ParseToken(parts[last]).None? {
      } else {
        TokensOfParts(parts, ParseTokens(parts).value);
      }
    }
  }

  /** The union holds exactly the integers some token stands for. */
  lemma {:induction false} UnionMembers(ts: seq<Token>, k: int)
    ensures k in Union(ts) <==> exists j :: 0 <= j < |ts| && k in Members(ts[j])
  {
    if ts != [] {
      var init := ts[..|ts| - 1];
      UnionMembers(init, k);
      assert forall j :: 0 <= j < |init| ==> init[j] == ts[j];
      if k in Members(ts[|ts| - 1]) {
        assert 0 <= |ts| - 1 < |ts| && k in Members(ts[|ts| - 1]);
      }
    }
  }

  /** A range and its reverse select the same fonts: `"5-3"` means `"3-5"`. */
  lemma ReversedRange(a: nat, b: nat, k: int)
    ensures ParseSelection(Decimal(a) + "-" + Decimal(b)) == ParseSelection(Decimal(b) + "-" + Decimal(a))
    ensures ParseSelection(Decimal(a) + "-" + Decimal(b)).Some?
    ensures k in ParseSelection(Decimal(a) + "-" + Decimal(b)).value <==>
      (if a <= b then a <= k <= b else b <= k <= a)
  {
    RangeToken(a, b);
    RangeToken(b, a);
    assert Members(Span(a, b)) == Members(Span(b, a));
    SpanMembers(a, b, k);
  }

  lemma DecimalHasNoSeparator(n: nat)
    ensures ' ' !in Decimal(n) && ',' !in Decimal(n) && '-' !in Decimal(n)
  {
    var d := Decimal(n);
    assert forall i :: 0 <= i < |d| ==> IsDigit(d[i]);
  }

  lemma RangeLine(x: string, y: string)
    requires ' ' !in x && ',' !in x && '-' !in x
    requires ' ' !in y && ',' !in y && '-' !in y
    ensures Split(RemoveSpaces(x + "-" + y), ',') == [x + "-" + y]
    ensures '-' in x + "-" + y
    ensures Split(x + "-" + y, '-') == [x, y]
  {
    var line := x + "-" + y;
    TwoPieces(line, x, y);
    assert ' ' !in line && ',' !in line;
    RemoveSpacesFacts(line);
    SplitWithoutSeparator(line, ',');
  }

  lemma RangeToken(a: nat, b: nat)
    ensures ParseSelection(Decimal(a) + "-" + Decimal(b)) == Some(Members(Span(a, b)))
  {
    var x, y := Decimal(a), Decimal(b);
    DecimalHasNoSeparator(a);
    DecimalHasNoSeparator(b);
    RangeLine(x, y);
    ParseDecimal(a);
    ParseDecimal(b);
    var line := x + "-" + y;
    TokenOfRange(line, x, y, a, b);
    OneToken(line, Split(RemoveSpaces(line), ','));
  }

  lemma TokenOfRange(line: string, x: string, y: string, a: nat, b: nat)
    requires '-' in line && Split(line, '-') == [x, y]
    requires ParseNat(x) == Some(a) && ParseNat(y) == Some(b)
    ensures ParseToken(line) == Some(Span(a, b))
  {
  }

  lemma OneToken(line: string, parts: seq<string>)
    requires parts == [line] && ParseToken(line).Some?
    ensures ParseTokens(parts) == Some([ParseToken(line).value])
    ensures Union([ParseToken(line).value]) == Members(ParseToken(line).value)
  {
    var t := ParseToken(line).value;
    assert parts[..|parts| - 1] == [];
    assert ParseTokens(parts[..|parts| - 1]) == Some([]);
    assert parts[|parts| - 1] == line;
    assert [] + [t] == [t];
    assert [t][..0] == [];
  }

  /** Spaces anywhere in the line are ignored: `"1, 3-5, 2"` parses as `"1,3-5,2"`. */
  lemma SpacesIgnored(a: string, b: string)
    ensures ParseSelection(a + " " + b) == ParseSelection(a + b)
  {
    ExtraSpaceIgnored(a, b);
  }

  // ===========================================================================
  // Resolving the parsed numbers against the numbered font list

  /** Strictly ascending by index, hence without a repeated index. */
  predicate Ascending(r: seq<(int, string)>)
  {
    forall i, j :: 0 <= i < j < |r| ==> r[i].0 < r[j].0
  }

  /**
   * The selected fonts: every 1-based position of `fonts` whose number is in `selection`,
   * paired with the font at that position, in ascending order.
   */
  function Chosen(fonts: seq<string>, selection: set<int>): (r: seq<(int, string)>)
    ensures Ascending(r)
    ensures forall p :: p in r <==> 1 <= p.0 <= |fonts| && p.0 in selection && p.1 == fonts[p.0 - 1]
  {
    if fonts == [] then []
    else
      var init := fonts[..|fonts| - 1];
      var before := Chosen(init, selection);
      assert forall i :: 0 <= i < |before| ==> before[i] in before;
      (before + if |fonts| in selection then [(|fonts|, fonts[|fonts| - 1])] else [])
  }

  /** What `select_fonts` resolves a line to before its empty check and confirmation. */
  function Selection(fonts: seq<string>, line: string): Option<seq<(int, string)>>
  {
    match ParseSelection(line)
    case None => None
    case Some(s) => Some(Chosen(fonts, s))
  }

  lemma TokensAppend(parts: seq<string>, part: string, ts: seq<Token>, t: Token)
    requires ParseTokens(parts) == Some(ts) && ParseToken(part) == Some(t)
    ensures ParseTokens(parts + [part]) == Some(ts + [t])
    ensures Union(ts + [t]) == Union(ts) + Members(t)
  {
    assert (parts + [part])[..|parts|] == parts;
    assert (ts + [t])[..|ts|] == ts;
  }

  lemma DigitsToken(part: string, n: nat)
    requires part == Decimal(n)
    ensures ParseToken(part) == Some(Single(n))
  {
    DecimalHasNoSeparator(n);
    ParseDecimal(n);
  }

  /** Two commas in a row, as in `"1,,2"`, leave an empty part, which makes the line invalid. */
  lemma EmptyPartRejected(line: string, x: string, y: string)
    requires line == x + "," + "," + y && ' ' !in line
    ensures ParseSelection(line) == None
  {
    RemoveSpacesFacts(line);
    var e: string := [];
    var head := x + [','] + e;
    assert head == x + [','];
    SplitConcat(x, e, ',');
    SplitConcat(head, y, ',');
    var parts := Split(line, ',');
    assert parts[|Split(x, ',')|] == e;
    assert ParseToken(e).None?;
    FailsIffSomePartFails(parts);
  }

  /** A token with two dashes, as in `"1-2-3"`, has three pieces, which do not unpack into two bounds. */
  lemma ThreeBoundsRejected(line: string, x: string, y: string, z: string)
    requires line == x + "-" + y + "-" + z && ' ' !in line && ',' !in line
    ensures ParseSelection(line) == None
  {
    RemoveSpacesFacts(line);
    SplitWithoutSeparator(line, ',');
    ThreePieces(line, x, y, z);
    assert ParseToken(line).None?;
    FailsIffSomePartFails([line]);
  }

  lemma ThreePieces(line: string, x: string, y: string, z: string)
    requires line == x + "-" + y + "-" + z
    ensures '-' in line && |Split(line, '-')| >= 3
  {
    var head := x + ['-'] + y;
    SplitConcat(x, y, '-');
    SplitConcat(head, z, '-');
    assert line[|x|] == '-';
  }

  /** An empty line is one empty part, which `int` rejects. */
  lemma EmptyLineRejected(line: string)
    requires line == ""
    ensures ParseSelection(line) == None
  {
    RemoveSpacesFacts(line);
    var parts := Split(line, ',');
    assert parts == [""];
    assert ParseToken(parts[0]).None?;
    FailsIffSomePartFails(parts);
  }

  /** A range with a missing bound on one side fails to parse that bound. */
  lemma MissingBoundRejected(line: string, x: string, y: string)
    requires line == x + "-" + y && ' ' !in line && ',' !in line && '-' !in x && '-' !in y
    requires ParseNat(x).None? || ParseNat(y).None?
    ensures ParseSelection(line) == None
  {
    RemoveSpacesFacts(line);
    SplitWithoutSeparator(line, ',');
    TwoPieces(line, x, y);
    assert ParseToken(line).None?;
    FailsIffSomePartFails([line]);
  }

  /** `x-y` with no dash in either bound splits on `-` into exactly its two bounds. */
  lemma TwoPieces(line: string, x: string, y: string)
    requires line == x + "-" + y && '-' !in x && '-' !in y
    ensures '-' in line && Split(line, '-') == [x, y]
  {
    SplitConcat(x, y, '-');
    SplitWithoutSeparator(x, '-');
    SplitWithoutSeparator(y, '-');
    assert line[|x|] == '-';
  }

  /** `"-3"` (a leading `-`) and `"a-b"` (non-digits) are invalid lines. */
  lemma DashAndLettersRejected(line1: string, line2: string)
    requires line1 == "-3" && line2 == "a-b"
    ensures ParseSelection(line1) == None && ParseSelection(line2) == None
  {
    var e, three, a, b := "", "3", "a", "b";
    assert line1 == e + "-" + three && line2 == a + "-" + b;
    assert !IsDigit('a');
    assert ParseNat(a).None?;
    MissingBoundRejected(line1, e, three);
    MissingBoundRejected(line2, a, b);
  }

  lemma SplitThree(x: string, y: string, z: string, c: char)
    requires c !in x && c !in y && c !in z
    ensures Split(x + [c] + y + [c] + z, c) == [x, y, z]
  {
    assert x + [c] + y + [c] + z == x + [c] + (y + [c] + z);
    SplitConcat(x, y + [c] + z, c);
    SplitConcat(y, z, c);
    SplitWithoutSeparator(x, c);
    SplitWithoutSeparator(y, c);
    SplitWithoutSeparator(z, c);
  }

  lemma MixedParts(line: string)
    requires line == "1,3-5,2"
    ensures Split(line, ',') == ["1", "3-5", "2"]
  {
    assert line == "1" + [','] + "3-5" + [','] + "2";
    SplitThree("1", "3-5", "2", ',');
  }

  lemma MixedTokens(parts: seq<string>, t1: Token, t2: Token, t3: Token)
    requires parts == ["1", "3-5", "2"] && t1 == Single(1) && t2 == Span(3, 5) && t3 == Single(2)
    ensures ParseTokens(parts) == Some([t1, t2, t3])
  {
    var three, five := Decimal(3), Decimal(5);
    assert parts[1] == three + "-" + five;
    RangeLine(three, five);
    ParseDecimal(3);
    ParseDecimal(5);
    TokenOfRange(parts[1], three, five, 3, 5);
    DigitsToken(parts[0], 1);
    DigitsToken(parts[2], 2);
    ThreeTokens(parts[0], parts[1], parts[2], t1, t2, t3);
  }

  /** Two parts parse to the two tokens they parse to one by one. */
  lemma TwoTokens(p1: string, p2: string, t1: Token, t2: Token)
    requires ParseToken(p1) == Some(t1) && ParseToken(p2) == Some(t2)
    ensures ParseTokens([p1, p2]) == Some([t1, t2])
  {
    var ps := [p1, p2];
    var none: seq<Token> := [];
    assert [p1][..0] == [] && none + [t1] == [t1];
    assert ParseTokens([p1]) == Some([t1]);
    assert ps[..1] == [p1] && ps[1] == p2;
    assert [t1] + [t2] == [t1, t2];
  }

  /** Three parts parse to the three tokens they parse to one by one. */
  lemma ThreeTokens(p1: string, p2: string, p3: string, t1: Token, t2: Token, t3: Token)
    requires ParseToken(p1) == Some(t1) && ParseToken(p2) == Some(t2) && ParseToken(p3) == Some(t3)
    ensures ParseTokens([p1, p2, p3]) == Some([t1, t2, t3])
  {
    TwoTokens(p1, p2, t1, t2);
    TokensAppend([p1, p2], p3, [t1, t2], t3);
    assert [p1, p2] + [p3] == [p1, p2, p3] && [t1, t2] + [t3] == [t1, t2, t3];
  }

  lemma UnionOfThree(t1: Token, t2: Token, t3: Token)
    ensures Union([t1, t2, t3]) == Members(t1) + Members(t2) + Members(t3)
  {
    assert Union([t1]) == Members(t1) by {
      assert [t1][..0] == [];
    }
    assert Union([t1, t2]) == Union([t1]) + Members(t2) by {
      assert [t1, t2][..1] == [t1];
    }
    assert [t1, t2, t3][..2] == [t1, t2];
  }

  lemma SmallSpan(a: nat, b: nat)
    requires a == 3 && b == 5
    ensures Members(Span(a, b)) == {3, 4, 5}
  {
    forall k ensures k in Members(Span(a, b)) <==> k in {3, 4, 5} {
      SpanMembers(a, b, k);
    }
  }

  lemma MixedStripped(line: string)
    requires line == "1, 3-5, 2"
    ensures RemoveSpaces(line) == "1,3-5,2"
  {
    var x, y, z := "1,", "3-5,", "2";
    assert line == x + " " + y + " " + z;
    TwoSpacesRemoved(x, y, z);
    assert x + y + z == "1,3-5,2";
  }

  /** Two spaces between three space-free pieces are all that is removed. */
  lemma TwoSpacesRemoved(x: string, y: string, z: string)
    requires ' ' !in x && ' ' !in y && ' ' !in z
    ensures RemoveSpaces(x + " " + y + " " + z) == x + y + z
  {
    var xy := x + " " + y;
    ExtraSpaceIgnored(xy, z);
    RemoveSpacesConcat(xy, z);
    ExtraSpaceIgnored(x, y);
    RemoveSpacesConcat(x, y);
    RemoveSpacesFacts(x);
    RemoveSpacesFacts(y);
    RemoveSpacesFacts(z);
    assert RemoveSpaces(xy) == x + y;
  }

  lemma MixedUnion(t1: Token, t2: Token, t3: Token)
    requires t1 == Single(1) && t2 == Span(3, 5) && t3 == Single(2)
    ensures Union([t1, t2, t3]) == {1, 2, 3, 4, 5}
  {
    UnionOfThree(t1, t2, t3);
    SmallSpan(t2.start, t2.end);
  }

  /** `"1, 3-5, 2"` selects the numbers 1 to 5. */
  lemma MixedSelection(line: string)
    requires line == "1, 3-5, 2"
    ensures ParseSelection(line) == Some({1, 2, 3, 4, 5})
  {
    var packed := "1,3-5,2";
    MixedStripped(line);
    MixedParts(packed);
    var t1, t2, t3 := Single(1), Span(3, 5), Single(2);
    MixedTokens(Split(RemoveSpaces(line), ','), t1, t2, t3);
    MixedUnion(t1, t2, t3);
  }

  lemma TwoParts(x: nat, y: nat)
    ensures Split(RemoveSpaces(Decimal(x) + "," + Decimal(y)), ',') == [Decimal(x), Decimal(y)]
  {
    var dx, dy := Decimal(x), Decimal(y);
    var line := dx + "," + dy;
    DecimalHasNoSeparator(x);
    DecimalHasNoSeparator(y);
    assert line == dx + [','] + dy;
    assert ' ' !in line;
    RemoveSpacesFacts(line);
    SplitConcat(dx, dy, ',');
    SplitWithoutSeparator(dx, ',');
    SplitWithoutSeparator(dy, ',');
  }

  /** Two numbers separated by a comma select exactly those two numbers. */
  lemma TwoNumbers(x: nat, y: nat)
    ensures ParseSelection(Decimal(x) + "," + Decimal(y)) == Some({x, y})
  {
    var dx, dy := Decimal(x), Decimal(y);
    TwoParts(x, y);
    DigitsToken(dx, x);
    DigitsToken(dy, y);
    assert [] + [dx] == [dx] && [dx] + [dy] == [dx, dy];
    TokensAppend([], dx, [], Single(x));
    TokensAppend([dx], dy, [Single(x)], Single(y));
    assert [] + [Single(x)] == [Single(x)] && [Single(x)] + [Single(y)] == [Single(x), Single(y)];
    assert Union([]) == {};
    var line := dx + "," + dy;
    assert ParseTokens(Split(RemoveSpaces(line), ',')) == Some([Single(x), Single(y)]);
    assert Union([Single(x), Single(y)]) == {x, y};
  }

  /** A single number selects exactly that number. */
  lemma OneNumber(x: nat)
    ensures ParseSelection(Decimal(x)) == Some({x})
  {
    var dx := Decimal(x);
    DecimalHasNoSeparator(x);
    RemoveSpacesFacts(dx);
    SplitWithoutSeparator(dx, ',');
    DigitsToken(dx, x);
    OneToken(dx, [dx]);
  }

  /** `int` accepts a leading plus sign, so `"+n"` selects exactly `n`. */
  lemma SignedNumber(x: nat)
    ensures ParseSelection("+" + Decimal(x)) == Some({x})
  {
    var dx := Decimal(x);
    var line := "+" + dx;
    DecimalHasNoSeparator(x);
    assert forall i :: 1 <= i < |line| ==> line[i] == dx[i - 1];
    assert ' ' !in line && ',' !in line && '-' !in line;
    RemoveSpacesFacts(line);
    SplitWithoutSeparator(line, ',');
    ParseSigned(x);
    assert ParseToken(line) == Some(Single(x));
    OneToken(line, [line]);
  }

  /** A number past the end of the list parses, but selects nothing; `select_fonts` then gives None. */
  lemma NothingInRange(fonts: seq<string>, x: nat)
    requires |fonts| < x
    ensures Selection(fonts, Decimal(x)) == Some([])
  {
    OneNumber(x);
    PastEndChosen(fonts, x);
  }

  lemma {:induction false} PastEndChosen(fonts: seq<string>, x: nat)
    requires |fonts| < x
    ensures Chosen(fonts, {x}) == []
  {
    if fonts != [] {
      PastEndChosen(fonts[..|fonts| - 1], x);
    }
  }

  /** Numbers past the end of the list are dropped: `"1,99"` over three fonts picks the first. */
  lemma UnknownNumbersDropped(line: string, a: string, b: string, c: string)
    requires line == "1,99"
    ensures Selection([a, b, c], line) == Some([(1, a)])
  {
    assert Decimal(1) == "1" && Decimal(99) == "99";
    assert line == Decimal(1) + "," + Decimal(99);
    TwoNumbers(1, 99);
    var r := Chosen([a, b, c], {1, 99});
    AscendingUnique(r, [(1, a)]);
  }

  predicate StrictlyIncreasing(s: seq<int>)
  {
    forall i, j :: 0 <= i < j < |s| ==> s[i] < s[j]
  }

  function SetOf(s: seq<int>): set<int> { set x | x in s }

  lemma SetOfConcat(a: seq<int>, b: seq<int>)
    ensures SetOf(a + b) == SetOf(a) + SetOf(b)
  {
    assert forall x :: x in a + b <==> x in a || x in b;
  }

  /** `range(lo, hi + 1)`. */
  function Interval(lo: int, hi: int): (r: seq<int>)
    requires lo <= hi
    ensures forall k :: k in r <==> lo <= k <= hi
  {
    var r := seq(hi - lo + 1, i requires 0 <= i <= hi - lo => lo + i);
    assert forall i :: 0 <= i < |r| ==> r[i] == lo + i;
    forall k | lo <= k <= hi ensures k in r {
      assert r[k - lo] == k;
    }
    r
  }

  function InsertUnique(x: int, s: seq<int>): (r: seq<int>)
    requires StrictlyIncreasing(s)
    ensures StrictlyIncreasing(r)
    ensures forall y :: y in r <==> y in s || y == x
  {
    if s == [] then [x]
    else if x < s[0] then [x] + s
    else if x == s[0] then s
    else
      TailIncreasing(s);
      var t := InsertUnique(x, s[1..]);
      ConsIncreasing(s[0], t);
      assert s == [s[0]] + s[1..];
      [s[0]] + t
  }

  lemma TailIncreasing(s: seq<int>)
    requires StrictlyIncreasing(s) && s != []
    ensures StrictlyIncreasing(s[1..]) && forall y :: y in s[1..] ==> s[0] < y
  {
  }

  lemma ConsIncreasing(b: int, t: seq<int>)
    requires StrictlyIncreasing(t) && forall y :: y in t ==> b < y
    ensures StrictlyIncreasing([b] + t)
  {
    var r := [b] + t;
    forall i, j | 0 <= i < j < |r| ensures r[i] < r[j] {
      assert r[j] == t[j - 1] && r[j] in t;
      if i > 0 { assert r[i] == t[i - 1]; }
    }
  }

  /** `sorted(set(xs))`. */
  function SortedUnique(xs: seq<int>): (r: seq<int>)
    ensures StrictlyIncreasing(r)
    ensures forall y :: y in r <==> y in xs
  {
    if xs == [] then []
    else
      var init := xs[..|xs| - 1];
      assert xs == init + [xs[|xs| - 1]];
      InsertUnique(xs[|xs| - 1], SortedUnique(init))
  }

  /** `[(i, numbered[i]) for i in xs if i in numbered]`. */
  function Resolve(xs: seq<int>, numbered: map<int, string>): seq<(int, string)>
  {
    if xs == [] then []
    else (if xs[0] in numbered then [(xs[0], numbered[xs[0]])] else []) + Resolve(xs[1..], numbered)
  }

  lemma {:induction false} ResolveMeaning(xs: seq<int>, numbered: map<int, string>)
    requires StrictlyIncreasing(xs)
    ensures Ascending(Resolve(xs, numbered))
    ensures forall p :: p in Resolve(xs, numbered) <==> p.0 in xs && p.0 in numbered && p.1 == numbered[p.0]
  {
    ResolveMembers(xs, numbered);
    ResolveAscending(xs, numbered);
  }

  lemma {:induction false} ResolveMembers(xs: seq<int>, numbered: map<int, string>)
    ensures forall p :: p in Resolve(xs, numbered) <==> p.0 in xs && p.0 in numbered && p.1 == numbered[p.0]
  {
    if xs != [] {
      ResolveMembers(xs[1..], numbered);
      assert xs == [xs[0]] + xs[1..];
    }
  }

  lemma {:induction false} ResolveAscending(xs: seq<int>, numbered: map<int, string>)
    requires StrictlyIncreasing(xs)
    ensures Ascending(Resolve(xs, numbered))
  {
    if xs != [] {
      var rest := Resolve(xs[1..], numbered);
      ResolveAscending(xs[1..], numbered);
      ResolveMembers(xs[1..], numbered);
      assert forall i :: 0 <= i < |rest| ==> rest[i] in rest;
      assert forall y :: y in xs[1..] ==> xs[0] < y;
    }
  }

  /** Two ascending lists with the same pairs are the same list. */
  lemma {:induction false} AscendingUnique(a: seq<(int, string)>, b: seq<(int, string)>)
    requires Ascending(a) && Ascending(b)
    requires forall p :: p in a <==> p in b
    ensures a == b
  {
    BothEmptyOrNot(a, b);
    if a != [] {
      HeadsAgree(a, b);
      forall p ensures p in a[1..] <==> p in b[1..] {
        if p in a[1..] { TailMember(a, b, p); }
        if p in b[1..] { TailMember(b, a, p); }
      }
      AscendingUnique(a[1..], b[1..]);
      assert a == [a[0]] + a[1..] && b == [b[0]] + b[1..];
    }
  }

  lemma BothEmptyOrNot<T>(a: seq<T>, b: seq<T>)
    requires forall p :: p in a <==> p in b
    ensures a == [] <==> b == []
  {
    if a != [] { assert a[0] in b; }
    if b != [] { assert b[0] in a; }
  }

  /** Two ascending lists with the same elements start with the same element. */
  lemma HeadsAgree(a: seq<(int, string)>, b: seq<(int, string)>)
    requires Ascending(a) && Ascending(b) && a != [] && b != []
    requires forall p :: p in a <==> p in b
    ensures a[0] == b[0]
  {
    assert a[0] in b && b[0] in a;
    var i :| 0 <= i < |a| && a[i] == b[0];
    var j :| 0 <= j < |b| && b[j] == a[0];
    assert a[0].0 <= b[0].0 <= a[0].0;
    assert j == 0;
  }

  /** Behind equal heads, an element of one tail is in the other tail. */
  lemma TailMember(a: seq<(int, string)>, b: seq<(int, string)>, p: (int, string))
    requires Ascending(a) && Ascending(b) && a != [] && b != [] && a[0] == b[0]
    requires forall q :: q in a <==> q in b
    requires p in a[1..]
    ensures p in b[1..]
  {
    var i :| 0 <= i < |a[1..]| && a[1..][i] == p;
    assert a[i + 1] == p && a[i + 1].0 > a[0].0;
    assert p in b;
    var j :| 0 <= j < |b| && b[j] == p;
    assert j != 0;
    assert b[1..][j - 1] == p;
  }

  /** The numbering map `{1: fonts[0], 2: fonts[1], ...}`. */
  ghost predicate NumbersFonts(numbered: map<int, string>, fonts: seq<string>)
  {
    (forall i :: i in numbered <==> 1 <= i <= |fonts|) &&
    (forall i :: 1 <= i <= |fonts| ==> numbered[i] == fonts[i - 1])
  }

  /** Resolving the sorted, deduplicated numbers gives exactly the chosen fonts. */
  lemma ResolveIsChosen(xs: seq<int>, numbered: map<int, string>, fonts: seq<string>)
    requires StrictlyIncreasing(xs) && NumbersFonts(numbered, fonts)
    ensures Resolve(xs, numbered) == Chosen(fonts, SetOf(xs))
  {
    ResolveMeaning(xs, numbered);
    AscendingUnique(Resolve(xs, numbered), Chosen(fonts, SetOf(xs)));
  }

  // ===========================================================================
  // select_fonts, step by step

  /** The numbering loop: `counter += 1; numbered_fonts[counter] = font`. */
  method NumberFonts(fonts: seq<string>) returns (numbered: map<int, string>, counter: nat)
    ensures counter == |fonts|
    ensures NumbersFonts(numbered, fonts)
  {
    numbered, counter := map[], 0;
    for k := 0 to |fonts|
      invariant counter == k
      invariant forall i :: i in numbered <==> 1 <= i <= counter
      invariant forall i :: 1 <= i <= counter ==> numbered[i] == fonts[i - 1]
    {
      counter := counter + 1;
      numbered := numbered[counter := fonts[k]];
    }
  }

  /** One more part parsed: its token's integers join the ones collected so far. */
  lemma ParsedOneMore(parts: seq<string>, k: nat, normalized: seq<int>, t: Token, added: seq<int>)
    requires k < |parts| && ParseTokens(parts[..k]).Some? && ParseToken(parts[k]) == Some(t)
    requires SetOf(normalized) == Union(ParseTokens(parts[..k]).value) && SetOf(added) == Members(t)
    ensures ParseTokens(parts[..k + 1]) == Some(ParseTokens(parts[..k]).value + [t])
    ensures SetOf(normalized + added) == Union(ParseTokens(parts[..k + 1]).value)
  {
    var before := ParseTokens(parts[..k]).value;
    assert parts[..k + 1][..k] == parts[..k];
    SetOfConcat(normalized, added);
    assert (before + [t])[..|before|] == before;
  }

  /**
   * The `try` block: tokens parsed one at a time into `normalized_inputs`, which then
   * becomes `sorted(set(...))`; a token that fails ends it with no selection.
   */
  method ParseSelectionLine(line: string) returns (r: Option<seq<int>>)
    ensures r.None? <==> ParseSelection(line).None?
    ensures r.Some? ==> StrictlyIncreasing(r.value) && SetOf(r.value) == ParseSelection(line).value
  {
    var parts := Split(RemoveSpaces(line), ',');
    var normalized: seq<int> := [];
    var k := 0;
    assert parts[..0] == [];
    assert SetOf([]) == {};
    while k < |parts|
      invariant 0 <= k <= |parts|
      invariant ParseTokens(parts[..k]).Some?
      invariant SetOf(normalized) == Union(ParseTokens(parts[..k]).value)
    {
      var token := ParseToken(parts[k]);
      if token.None? {
        FailureOfPrefix(parts, k + 1);
        return None;
      }
      var added: seq<int>;
      match token.value {
        case Single(n) =>
          added := [n];
          assert SetOf(added) == {n};
        case Span(a, b) =>
          var start, end := a, b;
          if start > end {
            start, end := end, start;
          }
          added := Interval(start, end);
      }
      ParsedOneMore(parts, k, normalized, token.value, added);
      normalized := normalized + added;
      k := k + 1;
    }
    assert parts[..k] == parts;
    r := Some(SortedUnique(normalized));
    assert SetOf(r.value) == SetOf(normalized);
  }

  /**
   * `select_fonts`: None when the line does not parse, when no number falls within
   * `1..|fonts|`, or when the confirmation line is not empty; otherwise the chosen fonts.
   */
  method SelectFonts(fonts: seq<string>, line: string, confirm: string) returns (r: Option<seq<(int, string)>>)
    ensures r == match Selection(fonts, line)
                 case None => None
                 case Some(chosen) => if chosen == [] || confirm != "" then None else Some(chosen)
  {
    var numbered, counter := NumberFonts(fonts);
    var normalized := ParseSelectionLine(line);
    if normalized.None? {
      return None;
    }
    var selected := Resolve(normalized.value, numbered);
    ResolveIsChosen(normalized.value, numbered, fonts);
    assert SetOf(normalized.value) == ParseSelection(line).value;
    if selected == [] {
      return None;
    }
    if confirm != "" {
      return None;
    }
    return Some(selected);
  }

  // ===========================================================================
  // get_overwrite_choice

  /**
   * How an answer is normalised before it is tested. The code as written lowercases
   * and strips; StripOnly is the case-sensitive reading the prompt's five options imply.
   */
  datatype Normalization = LowerThenStrip | StripOnly

  function Normalize(norm: Normalization, line: string): string
  {
    match norm
    case LowerThenStrip => Strip(Lower(line))
    case StripOnly => Strip(line)
  }

  /** The tuple the answer is tested against. */
  predicate Accepted(c: string)
  {
    |c| == 1 && (c[0] == 'o' || c[0] == 's' || c[0] == 'O' || c[0] == 'S' || c[0] == 'c')
  }

  /**
   * The `while True` re-prompt loop over the console lines from position `from`: the
   * first accepted normalised answer and the position after it, or None when the lines
   * run out (an `EOFError` from `input`).
   */
  function NextChoice(answers: seq<string>, from: nat, norm: Normalization): (r: Option<(string, nat)>)
    ensures r.Some? ==> from < r.value.1 <= |answers|
    ensures r.Some? ==> Accepted(r.value.0) && r.value.0 == Normalize(norm, answers[r.value.1 - 1])
    decreases |answers| - from
  {
    if from >= |answers| then None
    else
      var c := Normalize(norm, answers[from]);
      if Accepted(c) then Some((c, from + 1)) else NextChoice(answers, from + 1, norm)
  }

  /** The prompt returns at the first accepted answer: every line before it was rejected. */
  lemma {:induction false} FirstAcceptedAnswer(answers: seq<string>, from: nat, norm: Normalization)
    ensures NextChoice(answers, from, norm).Some? ==>
      forall j :: from <= j < NextChoice(answers, from, norm).value.1 - 1 ==> !Accepted(Normalize(norm, answers[j]))
    decreases |answers| - from
  {
    if from < |answers| {
      ChoiceStep(answers, from, norm);
      if !Accepted(Normalize(norm, answers[from])) {
        FirstAcceptedAnswer(answers, from + 1, norm);
      }
    }
  }

  /** The prompt runs out of lines exactly when no remaining line is accepted. */
  lemma {:induction false} NoAcceptedAnswer(answers: seq<string>, from: nat, norm: Normalization)
    ensures NextChoice(answers, from, norm).None? <==>
      forall j :: from <= j < |answers| ==> !Accepted(Normalize(norm, answers[j]))
    decreases |answers| - from
  {
    if from < |answers| {
      ChoiceStep(answers, from, norm);
      if !Accepted(Normalize(norm, answers[from])) {
        NoAcceptedAnswer(answers, from + 1, norm);
      }
    }
  }

  /** After `.lower()` no answer can be `'O'` or `'S'`. */
  lemma LoweredNeverUpper(line: string)
    ensures Normalize(LowerThenStrip, line) != "O" && Normalize(LowerThenStrip, line) != "S"
  {
    var r := Normalize(LowerThenStrip, line);
    var low := Lower(line);
    LowerHasNoUpper(line);
    StripIsSlice(low);
    if |r| > 0 {
      assert r[0] in Chars(r);
      assert !IsUpper(r[0]);
    }
  }

  /** So the choice the code as written returns is always `'o'`, `'s'` or `'c'`. */
  lemma ChoiceIsLower(answers: seq<string>, from: nat)
    requires NextChoice(answers, from, LowerThenStrip).Some?
    ensures NextChoice(answers, from, LowerThenStrip).value.0 in {"o", "s", "c"}
  {
    var (c, n) := NextChoice(answers, from, LowerThenStrip).value;
    LoweredNeverUpper(answers[n - 1]);
    assert c == [c[0]];
  }

  /** As written, the answer line `"S"` comes back as `"s"` and `"O"` as `"o"`. */
  lemma UpperAnswersLowered()
    ensures NextChoice(["S"], 0, LowerThenStrip) == Some(("s", 1))
    ensures NextChoice(["O"], 0, LowerThenStrip) == Some(("o", 1))
  {
    LoweredLetter("S", "s");
    LoweredLetter("O", "o");
  }

  lemma LoweredLetter(line: string, c: string)
    requires |line| == 1 && IsUpper(line[0]) && c == [(line[0] as int + 32) as char] && Accepted(c)
    ensures NextChoice([line], 0, LowerThenStrip) == Some((c, 1))
  {
    assert Lower(line) == c;
    StripPadded([], c, []);
    assert [] + c + [] == c;
    assert Normalize(LowerThenStrip, [line][0]) == c;
  }

  /**
   * Whitespace around an accepted small letter is stripped, under either normalisation:
   * a line such as `" o "` is the answer `"o"`.
   */
  lemma PaddedAnswerAccepted(p: string, c: string, q: string, norm: Normalization)
    requires c == "o" || c == "s" || c == "c"
    requires forall k :: 0 <= k < |p| ==> IsSpace(p[k])
    requires forall k :: 0 <= k < |q| ==> IsSpace(q[k])
    ensures NextChoice([p + c + q], 0, norm) == Some((c, 1))
  {
    var line := p + c + q;
    assert forall k :: 0 <= k < |line| ==> !IsUpper(line[k]) by {
      forall k | 0 <= k < |line| ensures !IsUpper(line[k]) {
        if k < |p| {
          assert line[k] == p[k];
        } else if k < |p| + |c| {
          assert line[k] == c[k - |p|];
        } else {
          assert line[k] == q[k - |p| - |c|];
        }
      }
    }
    LowerWithoutCapitals(line);
    StripPadded(p, c, q);
    assert Normalize(norm, line) == c;
  }

  /** With case-sensitive answers a line `"S"` or `"O"` is returned as typed. */
  lemma CaseSensitiveKeepsUpper(answers: seq<string>, from: nat)
    requires from < |answers| && (answers[from] == "S" || answers[from] == "O")
    ensures NextChoice(answers, from, StripOnly) == Some((answers[from], from + 1))
  {
    var a := answers[from];
    assert |a| == 1 && !IsSpace(a[0]);
    assert StripLeft(a) == a;
    assert StripRight(a) == a;
  }

  /** One pass of the re-prompt loop: return the answer, or move on to the next line. */
  lemma ChoiceStep(answers: seq<string>, i: nat, norm: Normalization)
    requires i < |answers|
    ensures Accepted(Normalize(norm, answers[i])) ==> NextChoice(answers, i, norm) == Some((Normalize(norm, answers[i]), i + 1))
    ensures !Accepted(Normalize(norm, answers[i])) ==> NextChoice(answers, i, norm) == NextChoice(answers, i + 1, norm)
  {
  }

  /** `get_overwrite_choice`: reads lines until one is accepted, returning it normalised. */
  method GetOverwriteChoice(answers: seq<string>, from: nat, norm: Normalization) returns (choice: Option<string>, next: nat)
    requires from <= |answers|
    ensures choice.None? <==> NextChoice(answers, from, norm).None?
    ensures choice.Some? ==> NextChoice(answers, from, norm) == Some((choice.value, next))
    ensures choice.None? ==> next == |answers|
    ensures choice.Some? && norm == LowerThenStrip ==> choice.value == "o" || choice.value == "s" || choice.value == "c"
  {
    var i := from;
    choice := None;
    while i < |answers| && choice.None?
      invariant from <= i <= |answers|
      invariant choice.None? ==> NextChoice(answers, i, norm) == NextChoice(answers, from, norm)
      invariant choice.Some? ==> NextChoice(answers, from, norm) == Some((choice.value, i))
    {
      var c := Normalize(norm, answers[i]);
      ChoiceStep(answers, i, norm);
      if Accepted(c) {
        choice := Some(c);
      }
      i := i + 1;
    }
    next := i;
    if choice.Some? && norm == LowerThenStrip {
      ChoiceIsLower(answers, from);
    }
  }
}
