/**
 The fake file the decoder prints into: a growing buffer behind a printf-style callback.
 The formatting itself is a parameter (the text an unbounded buffer would receive);
 the truncation and the return value of `vsnprintf` are modelled after
 section 7.21.6.12 of ISO/IEC 9899:2011.
 */
module PrintBuffer {

  const NUL: char := '\0'

  /** The largest C `int`. */
  const INT_MAX: nat := 0x7fff_ffff

  predicate NulFrom(s: string, k: nat) {
    forall i :: k <= i < |s| ==> s[i] == NUL
  }

  function Nuls(n: nat): (s: string)
    ensures |s| == n && NulFrom(s, 0)
  {
    seq(n, i => NUL)
  }

  /** `std::string::resize`. */
  function Resize(s: string, n: nat): (r: string)
    ensures |r| == n
    ensures forall i :: 0 <= i < n ==> r[i] == if i < |s| then s[i] else NUL
  {
    if n <= |s| then s[..n] else s + Nuls(n - |s|)
  }

  function Min(a: int, b: int): int {
    if a < b then a else b
  }

  function Abs(a: int): nat {
    if a < 0 then -a else a
  }

  /** What `vsnprintf(data + pos, n, ..)` leaves in the buffer: a prefix of the text and a terminator. */
  function VsnprintfBuffer(buffer: string, pos: nat, n: nat, rendered: string): (r: string)
    requires pos + n <= |buffer|
    ensures |r| == |buffer|
    ensures forall i :: 0 <= i < pos || pos + Min(|rendered|, n - 1) < i < |r| ==> r[i] == buffer[i]
    ensures forall i :: 0 <= i < Min(|rendered|, n - 1) ==> r[pos + i] == rendered[i]
    ensures n > 0 ==> r[pos + Min(|rendered|, n - 1)] == NUL
  {
    if n == 0 then buffer
    else
      var k := Min(|rendered|, n - 1);
      buffer[..pos] + rendered[..k] + [NUL] + buffer[pos + k + 1..]
  }

  /** One round of the retry loop. */
  function Attempt(buffer: string, pos: nat, n: nat, rendered: string): (r: string)
    requires pos <= |buffer|
    ensures |r| == pos + n
  {
    VsnprintfBuffer(Resize(buffer, n + pos), pos, n, rendered)
  }

  lemma AttemptKeepsPrefix(buffer: string, pos: nat, n: nat, rendered: string)
    requires pos <= |buffer|
    ensures Attempt(buffer, pos, n, rendered)[..pos] == buffer[..pos]
  {
  }

  /** A round with room for the terminator prints the whole text. */
  lemma {:induction false} AttemptPrints(buffer: string, pos: nat, n: nat, rendered: string)
    requires pos <= |buffer| && |rendered| < n
    requires NulFrom(buffer, pos + |rendered| + 1)
    ensures var r := Attempt(buffer, pos, n, rendered);
      r[pos..pos + |rendered|] == rendered && NulFrom(r, pos + |rendered|)
  {
    var r := Attempt(buffer, pos, n, rendered);
    var text := r[pos..pos + |rendered|];
    assert forall i :: 0 <= i < |text| ==> text[i] == r[pos + i];
  }

  function Concat(pieces: seq<string>): string {
    if pieces == [] then "" else Concat(pieces[..|pieces| - 1]) + pieces[|pieces| - 1]
  }

  /** The piece stands at the position of a buffer with room for `n` characters, and NUL behind it. */
  ghost predicate Printed(buffer: string, pos: nat, n: nat, rendered: string) {
    && |rendered| < n && |buffer| == pos + n
    && buffer[pos..pos + |rendered|] == rendered && NulFrom(buffer, pos + |rendered|)
  }

  /** Where the retry loop stands after some attempts: how much room it asks for, and whether it is done. */
  ghost predicate Attempted(buffer: string, pos: nat, formatLength: nat, rendered: string, attempts: nat, alloc: nat,
                            done: bool) {
    && pos <= |buffer| && attempts <= 2
    && (attempts == 0 ==> !done && alloc == formatLength && NulFrom(buffer, pos))
    && (attempts > 0 && !done ==> attempts == 1 && alloc == |rendered| + 1 && |buffer| == pos + formatLength)
    && (attempts > 0 && done ==> Printed(buffer, pos, alloc, rendered))
    && (attempts > 0 ==> alloc == if |rendered| < formatLength then formatLength else |rendered| + 1)
    && (done ==> attempts == if |rendered| < formatLength then 1 else 2)
    && (attempts > 0 && !done ==> formatLength <= |rendered|)
  }

  lemma AttemptStep(buffer: string, pos: nat, formatLength: nat, rendered: string, attempts: nat, alloc: nat)
    requires Attempted(buffer, pos, formatLength, rendered, attempts, alloc, false)
    ensures
      var r := Attempt(buffer, pos, alloc, rendered);
      && r[..pos] == buffer[..pos]
      && if |rendered| < alloc then Attempted(r, pos, formatLength, rendered, attempts + 1, alloc, true)
         else Attempted(r, pos, formatLength, rendered, attempts + 1, |rendered| + 1, false)
  {
    AttemptKeepsPrefix(buffer, pos, alloc, rendered);
    if |rendered| < alloc {
      AttemptPrints(buffer, pos, alloc, rendered);
    }
  }

  class FakeFile {
    var buffer: string
    var pos: nat

    /** Everything behind the write position is NUL. */
    ghost predicate Valid()
      reads this
    {
      pos <= |buffer| && NulFrom(buffer, pos)
    }

    /** The text printed since the last reset. */
    ghost function Contents(): string
      reads this
      requires Valid()
    {
      buffer[..pos]
    }

    constructor ()
      ensures Valid() && Contents() == "" && buffer == ""
    {
      buffer, pos := "", 0;
    }

    method Reset()
      modifies this
      ensures Valid() && Contents() == "" && buffer == ""
    {
      pos := 0;
      buffer := "";
    }

    /**
     One call of the callback. `formatLength` is `strlen(format)` and `rendered` the text the
     format produces; an empty format renders to nothing. Returns what the callback returns and
     the number of calls of `vsnprintf` it took.
     */
    method Ffprintf(formatLength: nat, rendered: string) returns (printed: int, ghost attempts: nat)
      requires Valid()
      requires |rendered| < INT_MAX && formatLength <= INT_MAX
      modifies this
      ensures Valid()
      ensures Contents() == old(Contents()) + rendered
      ensures printed == |rendered|
      ensures |buffer| == pos - |rendered| + (if |rendered| < formatLength then formatLength else |rendered| + 1)
      ensures pos < |buffer| && forall i :: pos <= i < |buffer| ==> buffer[i] == '\0'
      ensures attempts == if |rendered| < formatLength then 1 else 2
    {
      var alloc: nat := formatLength;
      attempts := 0;
      printed := 0;
      var done := false;
      while !done
        invariant pos == old(pos) && pos <= |buffer| && buffer[..pos] == old(Contents())
        invariant Attempted(buffer, pos, formatLength, rendered, attempts, alloc, done)
        invariant done ==> printed == |rendered|
        decreases !done, 2 - attempts
      {
        AttemptStep(buffer, pos, formatLength, rendered, attempts, alloc);
        buffer := Attempt(buffer, pos, alloc, rendered);
        printed := |rendered|;
        attempts := attempts + 1;
        if printed < 0 || printed >= alloc {
          alloc := alloc + Abs(printed - alloc + 1);
        } else {
          done := true;
        }
      }
      pos := pos + printed;
      assert buffer[..pos] == buffer[..old(pos)] + buffer[old(pos)..pos];
    }

    /**
     The calls the decoder makes for one instruction: whatever was printed before, the text
     gains the concatenation of the pieces.
     */
    method PrintAll(formatLengths: seq<nat>, pieces: seq<string>)
      requires Valid()
      requires |formatLengths| == |pieces|
      requires forall i :: 0 <= i < |pieces| ==> |pieces[i]| < INT_MAX && formatLengths[i] <= INT_MAX
      modifies this
      ensures Valid()
      ensures Contents() == old(Contents()) + Concat(pieces)
      ensures pieces != [] ==> pos < |buffer| && buffer[pos] == '\0'
    {
      assert pieces[..0] == [];
      for i := 0 to |pieces|
        invariant Valid()
        invariant Contents() == old(Contents()) + Concat(pieces[..i])
        invariant i > 0 ==> pos < |buffer|
      {
        assert pieces[..i + 1][..i] == pieces[..i];
        var _, _ := Ffprintf(formatLengths[i], pieces[i]);
      }
      assert pieces[..|pieces|] == pieces;
    }
  }
}
