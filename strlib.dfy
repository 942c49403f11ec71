/**
 * The growable, nul-terminated string buffer of strlib.c (strlib_buf_t).
 *
 * The C buffer `s` of `buflen` bytes is an array whose length is buflen; the
 * string is s[0..len) and s[len] is the terminating '\0'. realloc becomes a
 * fresh array into which the old bytes are copied.
 */
module StrLib {

  /** isblank in the C locale. */
  predicate IsBlank(c: char) {
    c == ' ' || c == '\t'
  }

  /** The buffer size strlib_grow leaves for a string of length len that is to grow by n. */
  function GrownLength(buflen: nat, len: nat, n: nat): (r: nat)
    ensures r >= len + n + 1 && r >= buflen
    ensures buflen >= len + n + 1 ==> r == buflen
    ensures buflen < len + n + 1 ==> r >= (buflen + 16) * 3 / 2
  {
    if len + n + 1 > buflen then
      var grow := (buflen + 16) * 3 / 2;
      if grow < len + n + 1 then len + n + 1 else grow
    else buflen
  }

  /**
   * What strlib_rstrip leaves of s: trailing blanks are dropped, but never
   * below position mark.
   */
  function RStripped(s: seq<char>, mark: nat): seq<char>
    decreases |s|
  {
    if |s| > 0 && |s| > mark && IsBlank(s[|s| - 1]) then RStripped(s[..|s| - 1], mark) else s
  }

  /**
   * rstrip keeps a prefix of the string, the part it drops is all blanks, and
   * what is left ends in a non-blank, or is no longer than the mark.
   */
  lemma {:induction false} RStrippedSpec(s: seq<char>, mark: nat)
    ensures var r := RStripped(s, mark);
      r <= s
      && (forall i :: |r| <= i < |s| ==> IsBlank(s[i]))
      && (|r| == 0 || |r| <= mark || !IsBlank(r[|r| - 1]))
      && (|s| <= mark ==> r == s)
    decreases |s|
  {
    if |s| > 0 && |s| > mark && IsBlank(s[|s| - 1]) {
      RStrippedSpec(s[..|s| - 1], mark);
    }
  }

  /** Stripping twice strips no more than stripping once. */
  lemma {:induction false} RStrippedIdempotent(s: seq<char>, mark: nat)
    ensures RStripped(RStripped(s, mark), mark) == RStripped(s, mark)
    decreases |s|
  {
    if |s| > 0 && |s| > mark && IsBlank(s[|s| - 1]) {
      RStrippedIdempotent(s[..|s| - 1], mark);
    }
  }

  /** Blanks within the first mark characters always survive: the mark protects a quoted value's blanks. */
  lemma {:induction false} RStrippedKeepsMarked(s: seq<char>, mark: nat)
    requires mark <= |s|
    ensures s[..mark] <= RStripped(s, mark)
    decreases |s|
  {
    if |s| > 0 && |s| > mark && IsBlank(s[|s| - 1]) {
      RStrippedKeepsMarked(s[..|s| - 1], mark);
      assert s[..|s| - 1][..mark] == s[..mark];
    }
  }

  class StrBuf {
    /** s; its length is buflen. */
    var buf: array<char>
    /** Length of the string, without the terminating '\0'. */
    var len: nat
    /** Right mark for rstrip. */
    var mark: nat

    /** The string is nul-terminated inside the buffer. */
    ghost predicate Valid()
      reads this, buf
    {
      len < buf.Length && buf[len] == '\0'
    }

    /** The string held. */
    function Contents(): seq<char>
      reads this, buf
      requires len <= buf.Length
    {
      buf[..len]
    }

    /** strlib_init: an empty string in a buffer grown from nothing. */
    constructor ()
      ensures Valid() && fresh(buf)
      ensures Contents() == [] && mark == 0
      ensures buf.Length == GrownLength(0, 0, 1)
    {
      len := 0;
      mark := 0;
      buf := new char[0];
      new;
      Grow(1);
      buf[0] := '\0';
    }

    /**
     * strlib_grow: afterwards the buffer holds len + n + 1 bytes at least;
     * when it is reallocated the old bytes are carried over.
     */
    method Grow(n: nat)
      requires len <= buf.Length
      modifies this
      ensures len == old(len) && mark == old(mark)
      ensures buf == old(buf) || fresh(buf)
      ensures buf.Length == GrownLength(old(buf.Length), len, n)
      ensures buf[..old(buf.Length)] == old(buf[..])
    {
      if len + n + 1 > buf.Length {
        var grow := (buf.Length + 16) * 3 / 2;
        var newLength := if grow < len + n + 1 then len + n + 1 else grow;
        var nb := new char[newLength](_ => '\0');
        var i := 0;
        while i < buf.Length
          invariant buf == old(buf) && len == old(len) && mark == old(mark)
          invariant 0 <= i <= buf.Length && nb.Length == newLength
          invariant nb[..i] == buf[..i]
        {
          nb[i] := buf[i];
          i := i + 1;
        }
        buf := nb;
      }
    }

    /** strlib_reset: the empty string, mark 0. */
    method Reset()
      requires Valid()
      modifies this, buf
      ensures Valid() && buf == old(buf)
      ensures Contents() == [] && mark == 0
    {
      len := 0;
      mark := 0;
      buf[len] := '\0';
    }

    /** strlib_setmark. */
    method SetMark(m: nat)
      modifies this
      ensures mark == m && len == old(len) && buf == old(buf)
    {
      mark := m;
    }

    /** strlib_push: one more character. */
    method Push(c: char)
      requires Valid()
      modifies this, buf
      ensures Valid() && (buf == old(buf) || fresh(buf))
      ensures Contents() == old(Contents()) + [c] && mark == old(mark)
    {
      Grow(1);
      buf[len] := c;
      len := len + 1;
      buf[len] := '\0';
    }

    /** strlib_append: exactly the |s| characters of s. */
    method Append(s: seq<char>)
      requires Valid()
      modifies this, buf
      ensures Valid() && (buf == old(buf) || fresh(buf))
      ensures Contents() == old(Contents()) + s && mark == old(mark)
    {
      Grow(|s|);
      var i := 0;
      while i < |s|
        invariant 0 <= i <= |s|
        invariant buf[..len] == old(Contents())
        invariant forall k :: 0 <= k < i ==> buf[len + k] == s[k]
        modifies buf
      {
        buf[len + i] := s[i];
        i := i + 1;
      }
      assert buf[..len + |s|] == old(Contents()) + s;
      len := len + |s|;
      buf[len] := '\0';
    }

    /** strlib_rstrip: trailing blanks go, down to the mark. */
    method RStrip()
      requires Valid()
      modifies this, buf
      ensures Valid() && buf == old(buf) && mark == old(mark)
      ensures Contents() == RStripped(old(Contents()), mark)
    {
      while len > 0 && len > mark && IsBlank(buf[len - 1])
        invariant buf == old(buf) && mark == old(mark)
        invariant len <= old(len) && buf[..len] == old(buf[..len])[..len]
        invariant RStripped(buf[..len], mark) == RStripped(old(Contents()), mark)
        decreases len
      {
        assert buf[..len][..len - 1] == buf[..len - 1];
        len := len - 1;
      }
      buf[len] := '\0';
      assert buf[..len] == old(buf[..len])[..len];
    }
  }
}
