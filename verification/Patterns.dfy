/**
 The regular expressions of the operand parser, each as a function from the whole
 text to its capture groups. A contract says which texts match and pins the groups,
 so the greedy backtracking of the engine leaves no freedom.
 */
module Patterns {
  import opened Wrappers

  // ----- characters -----

  predicate HexDigit(c: char) {
    '0' <= c <= '9' || 'a' <= c <= 'f' || 'A' <= c <= 'F'
  }

  predicate WordChar(c: char) {
    '0' <= c <= '9' || 'a' <= c <= 'z' || 'A' <= c <= 'Z' || c == '_'
  }

  predicate AllHex(s: string) {
    forall i :: 0 <= i < |s| ==> HexDigit(s[i])
  }

  predicate AllWord(s: string) {
    forall i :: 0 <= i < |s| ==> WordChar(s[i])
  }

  predicate AllZero(s: string) {
    forall i :: 0 <= i < |s| ==> s[i] == '0'
  }

  /** `.` of an ECMAScript regular expression does not match these. */
  predicate HasNewline(s: string) {
    '\n' in s || '\r' in s
  }

  // ----- number and address -----

  /** The language of both `number` and `address`: hexadecimal digits after an optional `0x`. */
  predicate IsHexNumber(s: string) {
    (|s| >= 1 && AllHex(s)) || (|s| >= 3 && s[..2] == "0x" && AllHex(s[2..]))
  }

  /** The digits of a number, without the optional `0x`. */
  function Digits(s: string): (d: string)
    requires IsHexNumber(s)
    ensures |d| >= 1 && AllHex(d) && (s == d || s == "0x" + d)
  {
    if |s| >= 2 && s[1] == 'x' then s[2..] else s
  }

  function StripZeros(s: string): (d: string)
    requires |s| >= 1
    ensures 1 <= |d| <= |s| && s[|s| - |d|..] == d && AllZero(s[..|s| - |d|])
    ensures |d| == 1 || d[0] != '0'
  {
    if |s| == 1 || s[0] != '0' then s
    else
      var d := StripZeros(s[1..]);
      assert s[..|s| - |d|] == [s[0]] + s[1..][..|s| - 1 - |d|];
      d
  }

  /** `(?:0x)?0*([0-9a-fA-F]+)` against the whole text; the value is the first group. */
  function MatchAddress(s: string): (g: Option<string>)
    ensures g.Some? <==> IsHexNumber(s)
    ensures g.Some? ==> |g.value| >= 1 && AllHex(g.value) && (|g.value| == 1 || g.value[0] != '0')
    ensures g.Some? ==>
      var d := Digits(s);
      |g.value| <= |d| && d[|d| - |g.value|..] == g.value && AllZero(d[..|d| - |g.value|])
  {
    if IsHexNumber(s) then Some(StripZeros(Digits(s))) else None
  }

  /** `((?:0x0*)?[0-9a-fA-F]+)` against the whole text; the group is the whole text. */
  function MatchNumber(s: string): (g: Option<string>)
    ensures g.Some? <==> IsHexNumber(s)
    ensures g.Some? ==> g.value == s
  {
    if IsHexNumber(s) then Some(s) else None
  }

  function DigitValue(c: char): (v: nat)
    ensures HexDigit(c) ==> v < 16
  {
    if '0' <= c <= '9' then (c as int) - ('0' as int)
    else if 'a' <= c <= 'f' then (c as int) - ('a' as int) + 10
    else if 'A' <= c <= 'F' then (c as int) - ('A' as int) + 10
    else 0
  }

  function HexValue(s: string): nat {
    if s == [] then 0 else HexValue(s[..|s| - 1]) * 16 + DigitValue(s[|s| - 1])
  }

  /** Stream extraction in base 16: a value that does not fit becomes the largest `bfd_vma`. */
  function StrToVma(s: string): (a: Address) {
    var v := HexValue(s);
    if v < TWO_TO_THE_64 then v else TWO_TO_THE_64 - 1
  }

  // ----- dereference -----

  datatype Size = BIT | BYTE | WORD | DWORD | QWORD | XMM

  function SizeName(z: Size): string {
    match z
    case BIT => "BIT"
    case BYTE => "BYTE"
    case WORD => "WORD"
    case DWORD => "DWORD"
    case QWORD => "QWORD"
    case XMM => "XMMWORD"
  }

  /** `(?:\w+:)?` */
  predicate IsSegment(s: string) {
    s == "" || (|s| >= 2 && s[|s| - 1] == ':' && AllWord(s[..|s| - 1]))
  }

  function DereferenceText(z: Size, segment: string, inner: string): string {
    SizeName(z) + " PTR " + segment + "[" + inner + "]"
  }

  predicate DereferenceForm(s: string, z: Size, segment: string, inner: string) {
    z != BIT && IsSegment(segment) && !HasNewline(inner) && s == DereferenceText(z, segment, inner)
  }

  datatype Dereferenced = Dereferenced(size: Size, segment: string, inner: string)

  function FindChar(s: string, c: char): (i: nat)
    ensures i <= |s| && (i < |s| ==> s[i] == c)
    ensures forall k :: 0 <= k < i ==> s[k] != c
  {
    if s == [] || s[0] == c then 0 else FindChar(s[1..], c) + 1
  }

  /** What follows the size keyword: `(?:\w+:)?\[(.*)\]`. */
  function MatchBrackets(s: string): (r: Option<(string, string)>)
    ensures r.Some? ==>
      var (segment, inner) := r.value;
      IsSegment(segment) && !HasNewline(inner) && s == segment + "[" + inner + "]"
    ensures r.None? ==>
      forall segment, inner :: IsSegment(segment) && !HasNewline(inner) ==> s != segment + "[" + inner + "]"
  {
    var i := FindChar(s, '[');
    if i + 2 <= |s| && s[|s| - 1] == ']' && IsSegment(s[..i]) && !HasNewline(s[i + 1..|s| - 1]) then
      assert s == s[..i] + "[" + s[i + 1..|s| - 1] + "]";
      Some((s[..i], s[i + 1..|s| - 1]))
    else
      BracketPositions(s);
      None
  }

  /** In `segment[inner]` the first bracket ends the segment and the last character closes it. */
  lemma BracketPosition(s: string, segment: string, inner: string)
    requires IsSegment(segment) && s == segment + "[" + inner + "]"
    ensures FindChar(s, '[') == |segment|
    ensures |segment| + 2 <= |s| && s[|s| - 1] == ']' && s[..|segment|] == segment && s[|segment| + 1..|s| - 1] == inner
  {
    assert s[|segment|] == '[';
    assert forall k :: 0 <= k < |segment| ==> s[k] == segment[k];
  }

  lemma BracketPositions(s: string)
    ensures forall segment, inner :: IsSegment(segment) && s == segment + "[" + inner + "]" ==>
      FindChar(s, '[') == |segment| && |segment| + 2 <= |s| && s[|s| - 1] == ']'
      && s[..|segment|] == segment && s[|segment| + 1..|s| - 1] == inner
  {
    forall segment, inner | IsSegment(segment) && s == segment + "[" + inner + "]" {
      BracketPosition(s, segment, inner);
    }
  }

  function MatchSized(s: string, z: Size): (r: Option<Dereferenced>)
    requires z != BIT
    ensures r.Some? ==> r.value.size == z && |r.value.inner| + 2 <= |s|
  {
    var keyword := SizeName(z) + " PTR ";
    if keyword <= s then
      var m := MatchBrackets(s[|keyword|..]);
      if m.Some? then Some(Dereferenced(z, m.value.0, m.value.1)) else None
    else None
  }

  lemma SizedMatches(s: string, z: Size)
    requires z != BIT
    ensures var r := MatchSized(s, z);
      if r.Some? then DereferenceForm(s, z, r.value.segment, r.value.inner)
      else forall segment, inner :: !DereferenceForm(s, z, segment, inner)
  {
    KeywordSplit(s, z);
  }

  lemma KeywordSplit(s: string, z: Size)
    ensures forall segment, inner ::
      s == DereferenceText(z, segment, inner) <==>
      SizeName(z) + " PTR " <= s && s[|SizeName(z)| + 5..] == segment + "[" + inner + "]"
  {
    var keyword := SizeName(z) + " PTR ";
    forall segment, inner
      ensures s == DereferenceText(z, segment, inner) <==>
        keyword <= s && s[|SizeName(z)| + 5..] == segment + "[" + inner + "]"
    {
      assert DereferenceText(z, segment, inner) == keyword + (segment + "[" + inner + "]");
    }
  }

  /** `(XMMWORD|BYTE|WORD|DWORD|QWORD) PTR (?:\w+:)?\[(.*)\]` against the whole text. */
  function MatchDereference(s: string): (r: Option<Dereferenced>)
    ensures r.Some? ==> r.value.size != BIT && |r.value.inner| + 2 <= |s|
  {
    var x := MatchSized(s, XMM);
    if x.Some? then x else
    var b := MatchSized(s, BYTE);
    if b.Some? then b else
    var w := MatchSized(s, WORD);
    if w.Some? then w else
    var d := MatchSized(s, DWORD);
    if d.Some? then d else
    MatchSized(s, QWORD)
  }

  /** It matches exactly the dereference texts, and the captured groups rebuild the text. */
  lemma {:induction false} DereferenceMatches(s: string)
    ensures var r := MatchDereference(s);
      if r.Some? then DereferenceForm(s, r.value.size, r.value.segment, r.value.inner)
      else forall z, segment, inner :: !DereferenceForm(s, z, segment, inner)
  {
    SizedMatches(s, XMM);
    SizedMatches(s, BYTE);
    SizedMatches(s, WORD);
    SizedMatches(s, DWORD);
    SizedMatches(s, QWORD);
  }

  /** The capture groups of a dereference are determined by the text alone. */
  lemma {:induction false} DereferenceUnique(s: string, z: Size, segment: string, inner: string)
    requires DereferenceForm(s, z, segment, inner)
    ensures MatchDereference(s) == Some(Dereferenced(z, segment, inner))
  {
    DereferenceMatches(s);
    var m := MatchDereference(s).value;
    KeywordSplit(s, z);
    KeywordSplit(s, m.size);
    SizeKeywordUnique(s, z, m.size);
    BracketPositions(s[|SizeName(z)| + 5..]);
  }

  lemma SizeKeywordUnique(s: string, z: Size, z': Size)
    requires SizeName(z) + " PTR " <= s && SizeName(z') + " PTR " <= s
    ensures z == z'
  {
    assert s[0] == SizeName(z)[0] == SizeName(z')[0];
    assert s[1] == (SizeName(z) + " PTR ")[1] == (SizeName(z') + " PTR ")[1];
  }

  // ----- binary operators -----

  const MULTIPLICATION: set<char> := {'*'}
  const ADD_OR_SUBTRACT: set<char> := {'+', '-'}

  /** An operator that a split may use: one with text on both sides. */
  predicate SplitsAt(s: string, ops: set<char>, i: int) {
    1 <= i <= |s| - 2 && s[i] in ops
  }

  /** The greatest index below `n` at which the text may be split. */
  function LastSplit(s: string, ops: set<char>, n: nat): (r: Option<nat>)
    requires n <= |s|
    ensures r.Some? ==> r.value < n && SplitsAt(s, ops, r.value)
    ensures forall j :: (if r.Some? then r.value else -1) < j < n ==> !SplitsAt(s, ops, j)
  {
    if n == 0 then None
    else if SplitsAt(s, ops, n - 1) then Some(n - 1)
    else LastSplit(s, ops, n - 1)
  }

  datatype Split = Split(lhs: string, op: char, rhs: string)

  /**
   `(.+)(op)(.+)` against the whole text. The first group is greedy, so the split is at
   the last operator that leaves a character on its right; `.` refuses a text with a newline.
   */
  function MatchSplit(s: string, ops: set<char>): (r: Option<Split>)
    ensures r.Some? ==> !HasNewline(s) && |r.value.lhs| >= 1 && |r.value.rhs| >= 1 && r.value.op in ops
    ensures r.Some? ==> |s| == |r.value.lhs| + |r.value.rhs| + 1
    ensures r.Some? ==> s == r.value.lhs + [r.value.op] + r.value.rhs && SplitsAt(s, ops, |r.value.lhs|)
    ensures r.Some? ==> forall j :: |r.value.lhs| < j ==> !SplitsAt(s, ops, j)
    ensures r.None? ==> HasNewline(s) || forall j :: !SplitsAt(s, ops, j)
  {
    var i := LastSplit(s, ops, |s|);
    if HasNewline(s) || i.None? then None else Some(Split(s[..i.value], s[i.value], s[i.value + 1..]))
  }
}
