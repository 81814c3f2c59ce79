/**
 * NUL-terminated strings inside a byte buffer, read the way C reads them:
 * from a start index up to the first NUL.
 */
module CStrings {

  const NUL: char := '\0'

  predicate NoNul(s: seq<char>) {
    forall i :: 0 <= i < |s| ==> s[i] != NUL
  }

  /** The index of the first NUL at or after `i`, or `|buf|` when there is none. */
  function NulFrom(buf: seq<char>, i: nat): (j: nat)
    requires i <= |buf|
    ensures i <= j <= |buf|
    ensures forall k :: i <= k < j ==> buf[k] != NUL
    ensures j < |buf| ==> buf[j] == NUL
    decreases |buf| - i
  {
    if i == |buf| || buf[i] == NUL then i else NulFrom(buf, i + 1)
  }

  /** A C string starting at `i` ends inside the buffer: there is a NUL at or after `i`. */
  predicate Terminated(buf: seq<char>, i: nat) {
    i < |buf| && NulFrom(buf, i) < |buf|
  }

  /** Any NUL at or after `i` terminates the C string at `i`, no later than that NUL. */
  lemma TerminatedAt(buf: seq<char>, i: nat, j: nat)
    requires i <= j < |buf| && buf[j] == NUL
    ensures Terminated(buf, i) && NulFrom(buf, i) <= j
  {
  }

  /** The C string at `i`: the bytes from `i` up to, not including, the first NUL. */
  function CStr(buf: seq<char>, i: nat): (s: seq<char>)
    requires Terminated(buf, i)
    ensures i + |s| < |buf| && buf[i + |s|] == NUL && NoNul(s)
  {
    buf[i..NulFrom(buf, i)]
  }

  /** A C string that does not start with its NUL is its first byte followed by the C string one byte on. */
  lemma CStrStep(buf: seq<char>, i: nat)
    requires Terminated(buf, i) && buf[i] != NUL
    ensures Terminated(buf, i + 1) && CStr(buf, i) == [buf[i]] + CStr(buf, i + 1)
  {
    assert NulFrom(buf, i) == NulFrom(buf, i + 1);
  }

  /** A non-empty C string without its first byte is the C string one byte on. */
  lemma CStrTail(buf: seq<char>, i: nat)
    requires Terminated(buf, i) && |CStr(buf, i)| > 0
    ensures Terminated(buf, i + 1) && CStr(buf, i + 1) == CStr(buf, i)[1..]
  {
    CStrStep(buf, i);
  }

  /** A run of non-NUL bytes closed by a NUL is the C string at its start. */
  lemma CStrIsRun(buf: seq<char>, i: nat, j: nat)
    requires i <= j < |buf| && buf[j] == NUL
    requires forall k :: i <= k < j ==> buf[k] != NUL
    ensures Terminated(buf, i) && CStr(buf, i) == buf[i..j]
  {
    TerminatedAt(buf, i, j);
  }

  /** A NUL-free literal followed by a NUL is the C string at its start. */
  lemma CStrIsLiteral(buf: seq<char>, i: nat, lit: seq<char>)
    requires i + |lit| < |buf| && buf[i..i + |lit|] == lit && buf[i + |lit|] == NUL && NoNul(lit)
    ensures Terminated(buf, i) && CStr(buf, i) == lit
  {
    forall k | i <= k < i + |lit|
      ensures buf[k] != NUL
    {
      assert buf[k] == lit[k - i];
    }
    CStrIsRun(buf, i, i + |lit|);
  }

  /**
   * Compares the C string at `i` with a literal one byte at a time, stopping
   * at the first mismatch, like a chain of `s[0] == 'G' && s[1] == 'E' && ...
   * && !s[n]`: no byte after the first mismatch or NUL is read.
   */
  function CStrEq(buf: seq<char>, i: nat, lit: seq<char>): (eq: bool)
    requires Terminated(buf, i) && NoNul(lit)
    ensures eq <==> CStr(buf, i) == lit
    decreases |lit|
  {
    if lit == [] then
      buf[i] == NUL
    else if buf[i] != lit[0] then
      false
    else
      CStrStep(buf, i);
      CStrEq(buf, i + 1, lit[1..])
  }

  /** The C string at `i` is found before the end of `buf`, so bytes appended after it are never read. */
  lemma CStrIgnoresTail(buf: seq<char>, tail: seq<char>, i: nat)
    requires Terminated(buf, i)
    ensures Terminated(buf + tail, i)
    ensures CStr(buf + tail, i) == CStr(buf, i)
  {
    var j := NulFrom(buf, i);
    CStrIsRun(buf + tail, i, j);
    assert (buf + tail)[i..j] == buf[i..j];
  }
}
