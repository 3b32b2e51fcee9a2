/** The string loops of the directory cache, over buffers. */
module TextBuffers {
  import opened Bytes
  import opened DirectoryText

  /** The length of the C string that starts the buffer. */
  method StrLen(buf: array<byte>) returns (n: nat)
    requires NUL in buf[..]
    ensures n < buf.Length && buf[n] == NUL && buf[..n] == CString(buf[..])
  {
    n := 0;
    CStringSplit(buf[..], 0);
    while buf[n] != NUL
      invariant n < buf.Length && NUL in buf[n..]
      invariant CString(buf[..]) == buf[..n] + CString(buf[n..])
      decreases buf.Length - n
    {
      CStringSplit(buf[..], n);
      n := n + 1;
    }
    CStringSplit(buf[..], n);
  }

  /** The string that starts at n, by its first character. */
  lemma CStringSplit(s: seq<byte>, n: nat)
    requires n < |s|
    ensures s[0..] == s && s[..0] == []
    ensures s[n] == NUL ==> CString(s[n..]) == []
    ensures s[n] != NUL ==> CString(s[n..]) == [s[n]] + CString(s[n + 1..]) && s[..n] + [s[n]] == s[..n + 1]
    ensures s[n] != NUL && NUL in s[n..] ==> NUL in s[n + 1..]
    ensures s[..n] + CString(s[n..]) == if s[n] == NUL then s[..n] else s[..n + 1] + CString(s[n + 1..])
  {
    assert s[n..] == [s[n]] + s[n + 1..];
  }

  /** How often c occurs among the first bsize bytes. */
  method CountOccurrencesIn(buf: array<byte>, c: byte, bsize: nat) returns (count: nat)
    requires bsize <= buf.Length
    ensures count == CountOccurrences(buf[..bsize], c)
  {
    count := 0;
    for i := 0 to bsize
      invariant count == CountOccurrences(buf[..i], c)
    {
      assert buf[..i + 1][..i] == buf[..i];
      if buf[i] == c {
        count := count + 1;
      }
    }
  }

  /** Appends a string to the text in a buffer that is zero beyond it. */
  method StrCat(dest: array<byte>, source: seq<byte>, ghost text: seq<byte>)
    requires NUL !in text && |text| + |source| < dest.Length
    requires dest[..] == text + Zeros(dest.Length - |text|)
    modifies dest
    ensures dest[..] == text + source + Zeros(dest.Length - |text| - |source|)
  {
    var at := 0;
    while dest[at] != NUL
      invariant at <= |text|
      decreases |text| - at
    {
      assert dest[at] == text[at];
      at := at + 1;
    }
    for i := 0 to |source|
      invariant dest[..] == text + source[..i] + Zeros(dest.Length - |text| - i)
    {
      dest[at + i] := source[i];
    }
  }

  /** The tokens still to come: the one at hand, and those of the rest. */
  function Ahead(word: CharPtr, rest: seq<byte>): seq<seq<byte>> {
    if word.Null? then [] else [word.chars] + Tokens(rest)
  }

  lemma AheadOf(s: seq<byte>)
    ensures Tokens(s) == Ahead(Strtok(s).0, Strtok(s).1)
  {
  }

  /** The words of a string, at most maxWords, into an array of pointers; what is
      left of the array is NULL. Returns the number of words. */
  method BreakWords(input: seq<byte>, out: array<CharPtr>, maxWords: nat) returns (j: nat)
    requires maxWords <= out.Length
    modifies out
    ensures j == Min(maxWords, |Tokens(input)|)
    ensures forall i :: 0 <= i < maxWords ==> out[i] == if i < j then Str(Tokens(input)[i]) else Null
    ensures forall i :: maxWords <= i < out.Length ==> out[i] == old(out[i])
  {
    hide Tokens, Strtok;
    var (words, rest) := Strtok(input);
    AheadOf(input);
    j := 0;
    for i := 0 to maxWords
      invariant j <= i && (!words.Null? ==> j == i) && j <= |Tokens(input)| && Tokens(input)[j..] == Ahead(words, rest)
      invariant forall k :: 0 <= k < i ==> out[k] == if k < j then Str(Tokens(input)[k]) else Null
      invariant forall k :: i <= k < out.Length ==> out[k] == old(out[k])
    {
      out[i] := words;
      if !words.Null? {
        assert Tokens(input)[j] == Tokens(input)[j..][0] && Tokens(input)[j + 1..] == Tokens(input)[j..][1..];
        AheadOf(rest);
        j := j + 1;
        var (next, left) := Strtok(rest);
        words, rest := next, left;
      }
    }
    if words.Null? {
      assert |Tokens(input)[j..]| == 0;
    }
  }
}
