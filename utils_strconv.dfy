/**
 * utils/strconv.go: a list of uint64 numbers joined into a string with a
 * delimiter, and the parse back.  The join is written, as in the source,
 * through what Go's `fmt.Sprint` prints for a slice (`[1 2 3]`), a
 * replacement of every space by the delimiter and a trim of the brackets;
 * the parse is `strings.Split` followed by `strconv.ParseUint(_, 10, 64)`
 * of every piece.  Strings are sequences of characters, and numbers are
 * naturals below 2^64.
 */
module UtilsStrconv {
  import opened Wrappers

  const MaxUint64: nat := 0xFFFF_FFFF_FFFF_FFFF

  predicate IsDigit(c: char) {
    '0' <= c <= '9'
  }

  predicate AllDigits(s: string) {
    forall i :: 0 <= i < |s| ==> IsDigit(s[i])
  }

  predicate NoDigits(s: string) {
    forall i :: 0 <= i < |s| ==> !IsDigit(s[i])
  }

  function DigitChar(d: nat): (c: char)
    requires d < 10
    ensures IsDigit(c)
  {
    ('0' as int + d) as char
  }

  function DigitValue(c: char): (d: nat)
    requires IsDigit(c)
    ensures d < 10
  {
    c as int - '0' as int
  }

  /** The decimal form of n without leading zeros, as `fmt` prints a uint64. */
  function NatToString(n: nat): (r: string)
    ensures |r| > 0 && AllDigits(r)
    decreases n
  {
    if n < 10 then [DigitChar(n)] else NatToString(n / 10) + [DigitChar(n % 10)]
  }

  /** The value of a string of decimal digits; leading zeros add nothing. */
  function DecimalValue(s: string): nat
    requires AllDigits(s)
  {
    if s == [] then 0 else DecimalValue(s[..|s| - 1]) * 10 + DigitValue(s[|s| - 1])
  }

  lemma {:induction false} DecimalRoundTrip(n: nat)
    ensures DecimalValue(NatToString(n)) == n
    decreases n
  {
    var s := NatToString(n);
    if n >= 10 {
      assert s[..|s| - 1] == NatToString(n / 10);
      DecimalRoundTrip(n / 10);
    }
  }

  /** `strconv.ParseUint(s, 10, 64)`: digits only, at least one, and in range. */
  function ParseUint(s: string): Option<nat> {
    if s != [] && AllDigits(s) && DecimalValue(s) <= MaxUint64 then Some(DecimalValue(s)) else None
  }

  lemma ParseUintRoundTrip(n: nat)
    requires n <= MaxUint64
    ensures ParseUint(NatToString(n)) == Some(n)
  {
    DecimalRoundTrip(n);
  }

  /** `strings.Join`. */
  function Join(pieces: seq<string>, sep: string): string {
    if pieces == [] then ""
    else if |pieces| == 1 then pieces[0]
    else pieces[0] + sep + Join(pieces[1..], sep)
  }

  function Decimals(xs: seq<nat>): (r: seq<string>)
    ensures |r| == |xs|
    ensures forall i :: 0 <= i < |xs| ==> r[i] == NatToString(xs[i])
  {
    seq(|xs|, i requires 0 <= i < |xs| => NatToString(xs[i]))
  }

  /** `fmt.Sprint` of a `[]uint64`: the numbers between brackets, one space apart. */
  function SprintUints(xs: seq<nat>): string {
    "[" + Join(Decimals(xs), " ") + "]"
  }

  /** `strings.Replace(s, string(target), repl, -1)` for a one-character `target`. */
  function ReplaceChar(s: string, target: char, repl: string): string {
    if s == [] then ""
    else (if s[0] == target then repl else [s[0]]) + ReplaceChar(s[1..], target, repl)
  }

  function TrimLeft(s: string, cutset: set<char>): (r: string)
    ensures |r| <= |s|
  {
    if s != [] && s[0] in cutset then TrimLeft(s[1..], cutset) else s
  }

  function TrimRight(s: string, cutset: set<char>): (r: string)
    ensures |r| <= |s|
  {
    if s != [] && s[|s| - 1] in cutset then TrimRight(s[..|s| - 1], cutset) else s
  }

  /** `strings.Trim`. */
  function Trim(s: string, cutset: set<char>): string {
    TrimRight(TrimLeft(s, cutset), cutset)
  }

  /** `UintArrayToString`, in the source's own three steps. */
  function UintArrayToString(xs: seq<nat>, delim: string): string {
    Trim(ReplaceChar(SprintUints(xs), ' ', delim), {'[', ']'})
  }

  lemma {:induction false} ReplaceAppend(a: string, b: string, target: char, repl: string)
    ensures ReplaceChar(a + b, target, repl) == ReplaceChar(a, target, repl) + ReplaceChar(b, target, repl)
    decreases |a|
  {
    if a != [] {
      assert (a + b)[1..] == a[1..] + b;
      ReplaceAppend(a[1..], b, target, repl);
    } else {
      assert a + b == b;
    }
  }

  lemma {:induction false} ReplaceDigits(s: string, repl: string)
    requires AllDigits(s)
    ensures ReplaceChar(s, ' ', repl) == s
    decreases |s|
  {
    if s != [] {
      ReplaceDigits(s[1..], repl);
      assert [s[0]] + s[1..] == s;
    }
  }

  predicate AllDecimal(pieces: seq<string>) {
    forall i :: 0 <= i < |pieces| ==> |pieces[i]| > 0 && AllDigits(pieces[i])
  }

  /** Replacing the spaces of a space-joined list of numbers re-joins it with the new delimiter. */
  lemma {:induction false} ReplaceJoin(pieces: seq<string>, delim: string)
    requires AllDecimal(pieces)
    ensures ReplaceChar(Join(pieces, " "), ' ', delim) == Join(pieces, delim)
    decreases |pieces|
  {
    if |pieces| == 1 {
      ReplaceDigits(pieces[0], delim);
    } else if |pieces| > 1 {
      var p, rest := pieces[0], pieces[1..];
      ReplaceAppend(p + " ", Join(rest, " "), ' ', delim);
      ReplaceAppend(p, " ", ' ', delim);
      ReplaceDigits(p, delim);
      assert ReplaceChar(" ", ' ', delim) == delim + ReplaceChar([], ' ', delim);
      ReplaceJoin(rest, delim);
    }
  }

  /** A join of non-empty numbers starts and ends with a digit. */
  lemma {:induction false} JoinEnds(pieces: seq<string>, delim: string)
    requires AllDecimal(pieces) && pieces != []
    ensures |Join(pieces, delim)| > 0
    ensures IsDigit(Join(pieces, delim)[0]) && IsDigit(Join(pieces, delim)[|Join(pieces, delim)| - 1])
    decreases |pieces|
  {
    if |pieces| > 1 {
      JoinEnds(pieces[1..], delim);
      var j := Join(pieces, delim);
      var t := Join(pieces[1..], delim);
      assert j == pieces[0] + delim + t;
      assert j[0] == pieces[0][0];
      assert j[|j| - 1] == t[|t| - 1];
    }
  }

  /** Replacing the spaces of the printed slice re-joins the numbers with the delimiter. */
  lemma ReplaceInSprint(xs: seq<nat>, delim: string)
    ensures ReplaceChar(SprintUints(xs), ' ', delim) == "[" + Join(Decimals(xs), delim) + "]"
  {
    var ps := Decimals(xs);
    ReplaceAppend("[" + Join(ps, " "), "]", ' ', delim);
    ReplaceAppend("[", Join(ps, " "), ' ', delim);
    ReplaceJoin(ps, delim);
    assert ReplaceChar("[", ' ', delim) == "[" + ReplaceChar([], ' ', delim);
    assert ReplaceChar("]", ' ', delim) == "]" + ReplaceChar([], ' ', delim);
  }

  /** Trimming the brackets off a bracketed string that is empty inside or has digits at both ends. */
  lemma TrimBrackets(j: string)
    requires j == [] || (IsDigit(j[0]) && IsDigit(j[|j| - 1]))
    ensures Trim("[" + j + "]", {'[', ']'}) == j
  {
    var cut := {'[', ']'};
    var b := "[" + j + "]";
    if j == [] {
      assert b == "[]";
      assert b[1..] == "]" && "]"[1..] == [];
      assert TrimLeft(b, cut) == [];
    } else {
      assert b[0] == '[' && b[1..] == j + "]";
      assert TrimLeft(j + "]", cut) == j + "]";
      assert TrimLeft(b, cut) == j + "]";
      assert (j + "]")[..|j|] == j;
      assert TrimRight(j + "]", cut) == TrimRight(j, cut);
    }
  }

  /** The joined form: `UintArrayToString(xs, d)` is the decimals of xs joined by d. */
  lemma UintArrayToStringIsJoin(xs: seq<nat>, delim: string)
    ensures UintArrayToString(xs, delim) == Join(Decimals(xs), delim)
  {
    ReplaceInSprint(xs, delim);
    if xs != [] {
      JoinEnds(Decimals(xs), delim);
    }
    TrimBrackets(Join(Decimals(xs), delim));
  }

  /** `strings.Index`: the first position where sep occurs, or -1. */
  function Index(s: string, sep: string): (r: int)
    requires sep != []
    ensures -1 <= r <= |s| - |sep| || r == -1
    ensures r >= 0 ==> s[r..r + |sep|] == sep
    decreases |s|
  {
    if |s| < |sep| then -1
    else if s[..|sep|] == sep then 0
    else
      var k := Index(s[1..], sep);
      if k < 0 then -1 else k + 1
  }

  /**
   * `strings.Split(s, sep)`: the pieces between the occurrences of sep,
   * found left to right; an empty sep splits s into single characters.
   */
  function Split(s: string, sep: string): (r: seq<string>)
    decreases |s|
  {
    if sep == [] then seq(|s|, i requires 0 <= i < |s| => [s[i]])
    else
      var i := Index(s, sep);
      if i < 0 then [s] else [s[..i]] + Split(s[i + |sep|..], sep)
  }

  /** The delimiter is not found inside a run of digits. */
  lemma {:induction false} IndexAfterDigits(p: string, sep: string, t: string)
    requires AllDigits(p) && sep != [] && !IsDigit(sep[0])
    ensures Index(p + sep + t, sep) == |p|
    decreases |p|
  {
    var s := p + sep + t;
    if p == [] {
      assert s[..|sep|] == sep;
    } else {
      assert s[0] == p[0];
      assert s[..|sep|] != sep by {
        assert s[..|sep|][0] == p[0];
      }
      assert s[1..] == p[1..] + sep + t;
      IndexAfterDigits(p[1..], sep, t);
    }
  }

  lemma {:induction false} IndexNone(p: string, sep: string)
    requires AllDigits(p) && sep != [] && !IsDigit(sep[0])
    ensures Index(p, sep) == -1
    decreases |p|
  {
    if |p| >= |sep| {
      assert p[..|sep|] != sep by {
        assert p[..|sep|][0] == p[0];
      }
      IndexNone(p[1..], sep);
    }
  }

  /** Splitting a join of numbers by a delimiter that starts with a non-digit gives the numbers back. */
  lemma {:induction false} SplitJoin(pieces: seq<string>, delim: string)
    requires AllDecimal(pieces) && pieces != [] && delim != [] && !IsDigit(delim[0])
    ensures Split(Join(pieces, delim), delim) == pieces
    decreases |pieces|
  {
    if |pieces| == 1 {
      IndexNone(pieces[0], delim);
    } else {
      var p, rest := pieces[0], Join(pieces[1..], delim);
      var s := p + delim + rest;
      IndexAfterDigits(p, delim, rest);
      assert s[..|p|] == p;
      assert s[|p| + |delim|..] == rest;
      SplitJoin(pieces[1..], delim);
      assert pieces == [p] + pieces[1..];
    }
  }

  /** The parse of every piece; `None` is the `invalid ids` error. */
  function ParseAll(pieces: seq<string>): Option<seq<nat>> {
    if forall i :: 0 <= i < |pieces| ==> ParseUint(pieces[i]).Some? then
      Some(seq(|pieces|, i requires 0 <= i < |pieces| && ParseUint(pieces[i]).Some? => ParseUint(pieces[i]).value))
    else
      None
  }

  /** `StringToUintArray`: parse piece after piece, stopping at the first that fails. */
  method StringToUintArray(str: string, delim: string) returns (r: Option<seq<nat>>)
    ensures r == ParseAll(Split(str, delim))
    ensures r.Some? <==> forall i :: 0 <= i < |Split(str, delim)| ==> ParseUint(Split(str, delim)[i]).Some?
    ensures r.Some? ==> |r.value| == |Split(str, delim)|
  {
    var pieces := Split(str, delim);
    var uints: seq<nat> := [];
    var i := 0;
    while i < |pieces|
      invariant 0 <= i <= |pieces| && |uints| == i
      invariant forall j :: 0 <= j < i ==> ParseUint(pieces[j]) == Some(uints[j])
    {
      var id := ParseUint(pieces[i]);
      if id.None? {
        return None;
      }
      uints := uints + [id.value];
      i := i + 1;
    }
    r := Some(uints);
    assert uints == ParseAll(pieces).value;
  }

  /** The round trip, for a non-empty list and a delimiter with no digits. */
  lemma StringToUintArrayRoundTrip(xs: seq<nat>, delim: string)
    requires xs != [] && forall i :: 0 <= i < |xs| ==> xs[i] <= MaxUint64
    requires delim != [] && NoDigits(delim)
    ensures ParseAll(Split(UintArrayToString(xs, delim), delim)) == Some(xs)
  {
    UintArrayToStringIsJoin(xs, delim);
    SplitJoin(Decimals(xs), delim);
    forall i | 0 <= i < |xs| ensures ParseUint(Decimals(xs)[i]) == Some(xs[i]) {
      ParseUintRoundTrip(xs[i]);
    }
    assert ParseAll(Decimals(xs)).value == xs;
  }

  /** The empty list is printed as "", which does not parse back. */
  lemma EmptyListDoesNotRoundTrip(delim: string)
    requires delim != []
    ensures ParseAll(Split(UintArrayToString([], delim), delim)) == None
  {
    UintArrayToStringIsJoin([], delim);
    assert Split("", delim) == [""];
    assert ParseUint(Split("", delim)[0]).None?;
  }

  /** Leading zeros are accepted, so two strings parse to the same list. */
  lemma LeadingZerosAccepted()
    ensures ParseAll(Split("01", ",")) == ParseAll(Split("1", ",")) == Some([1])
  {
    IndexNone("01", ",");
    IndexNone("1", ",");
    assert Split("01", ",") == ["01"];
    assert Split("1", ",") == ["1"];
    assert DecimalValue("01") == 1 by {
      assert "01"[..1] == "0";
      assert "0"[..0] == "";
    }
    assert DecimalValue("1") == 1 by {
      assert "1"[..0] == "";
    }
    assert ParseAll(["01"]).value == [1];
    assert ParseAll(["1"]).value == [1];
  }

  /** Three numbers are printed as their decimals with the delimiter between them. */
  lemma UintArrayToStringThree(a: nat, b: nat, c: nat, delim: string)
    ensures UintArrayToString([a, b, c], delim)
         == NatToString(a) + delim + NatToString(b) + delim + NatToString(c)
  {
    var xs := [a, b, c];
    UintArrayToStringIsJoin(xs, delim);
    var ds := Decimals(xs);
    assert ds == [NatToString(a), NatToString(b), NatToString(c)];
    JoinThree(ds[0], ds[1], ds[2], delim);
  }

  lemma JoinThree(a: string, b: string, c: string, delim: string)
    ensures Join([a, b, c], delim) == a + delim + b + delim + c
  {
    assert [a, b, c][1..] == [b, c];
    assert [b, c][1..] == [c];
    assert Join([b, c], delim) == b + delim + c;
    assert Join([a, b, c], delim) == a + delim + (b + delim + c);
  }

  /** The single-digit numbers print as one character. */
  lemma OneTwoThree()
    ensures NatToString(1) == "1" && NatToString(2) == "2" && NatToString(3) == "3"
  {
    assert NatToString(1) == [DigitChar(1)];
    assert NatToString(2) == [DigitChar(2)];
    assert NatToString(3) == [DigitChar(3)];
  }

  lemma UintArrayToStringExample()
    ensures UintArrayToString([1, 2, 3], ",") == "1,2,3"
  {
    UintArrayToStringThree(1, 2, 3, ",");
    OneTwoThree();
    assert "1" + "," + "2" + "," + "3" == "1,2,3";
  }

  lemma UintArrayToStringEmpty(delim: string)
    ensures UintArrayToString([], delim) == ""
  {
    UintArrayToStringIsJoin([], delim);
  }

  /** With an empty delimiter `strings.Split` explodes the string, so "" parses to the empty list. */
  lemma EmptyDelimiterEmptyString()
    ensures ParseAll(Split("", "")) == Some([])
  {
    assert Split("", "") == [];
    assert ParseAll([]).value == [];
  }
}
