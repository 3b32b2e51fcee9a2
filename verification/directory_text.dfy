/** A directory as it is stored in its inode: one `name|inode` line per child,
    printed by the write-back and parsed again when the directory is loaded. */
module DirectoryText {
  import opened Bytes

  type Name = seq<byte>

  datatype Entry = Entry(name: Name, num: int)

  const NUL: byte := 0
  const NEWLINE: byte := 10
  const SPACE: byte := 32
  const MINUS: byte := 45
  const PLUS: byte := 43
  const DOT: byte := 46
  const PIPE: byte := 124

  // ---------- C strings ----------

  /** The string that starts a buffer: everything before the first NUL. */
  function CString(buf: seq<byte>): (s: seq<byte>)
    ensures NUL !in s
  {
    if buf == [] || buf[0] == NUL then [] else [buf[0]] + CString(buf[1..])
  }

  lemma {:induction false} CStringOfPadded(s: seq<byte>, tail: seq<byte>)
    requires NUL !in s && (tail == [] || tail[0] == NUL)
    ensures CString(s + tail) == s
  {
    if s == [] {
      assert s + tail == tail;
    } else {
      CStringOfPadded(s[1..], tail);
      assert (s + tail)[1..] == s[1..] + tail;
    }
  }

  /** It ends at the first NUL, or with the buffer. */
  lemma {:induction false} CStringIs(buf: seq<byte>)
    returns (n: nat)
    ensures n <= |buf| && CString(buf) == buf[..n] && (n < |buf| ==> buf[n] == 0)
    ensures forall i :: 0 <= i < n ==> buf[i] != 0
  {
    n := 0;
    if buf != [] && buf[0] != NUL {
      n := CStringIs(buf[1..]);
      assert buf[..n + 1] == [buf[0]] + buf[1..][..n];
      forall i | 0 <= i < n + 1
        ensures buf[i] != 0
      {
        assert i > 0 ==> buf[i] == buf[1..][i - 1];
      }
      n := n + 1;
    }
  }

  /** How often c occurs. */
  function CountOccurrences(buf: seq<byte>, c: byte): nat {
    if buf == [] then 0
    else CountOccurrences(buf[..|buf| - 1], c) + (if buf[|buf| - 1] == c then 1 else 0)
  }

  /** That is, at how many places. */
  lemma {:induction false} CountOccurrencesIs(buf: seq<byte>, c: byte)
    ensures CountOccurrences(buf, c) == |set i | 0 <= i < |buf| && buf[i] == c|
  {
    if buf != [] {
      var init, last := buf[..|buf| - 1], |buf| - 1;
      CountOccurrencesIs(init, c);
      var before := set i | 0 <= i < |init| && init[i] == c;
      assert (set i | 0 <= i < |buf| && buf[i] == c) == before + (if buf[last] == c then {last} else {});
    }
  }

  lemma {:induction false} CountOccurrencesConcat(a: seq<byte>, b: seq<byte>, c: byte)
    ensures CountOccurrences(a + b, c) == CountOccurrences(a, c) + CountOccurrences(b, c)
  {
    if b == [] {
      assert a + b == a;
    } else {
      CountOccurrencesConcat(a, b[..|b| - 1], c);
      assert (a + b)[..|a + b| - 1] == a + b[..|b| - 1];
    }
  }

  lemma {:induction false} CountOccurrencesOfAbsent(a: seq<byte>, c: byte)
    requires c !in a
    ensures CountOccurrences(a, c) == 0
  {
    if a != [] {
      CountOccurrencesOfAbsent(a[..|a| - 1], c);
    }
  }

  // ---------- decimal numbers ----------

  predicate IsDigit(c: byte) {
    48 <= c <= 57
  }

  function DigitChar(d: int): (c: byte)
    requires 0 <= d < 10
    ensures IsDigit(c) && DigitValue(c) == d
  {
    if d == 0 then 48 else if d == 1 then 49 else if d == 2 then 50 else if d == 3 then 51
    else if d == 4 then 52 else if d == 5 then 53 else if d == 6 then 54 else if d == 7 then 55
    else if d == 8 then 56 else 57
  }

  function DigitValue(c: byte): (d: int)
    ensures 0 <= d < 10
  {
    if c == 48 then 0 else if c == 49 then 1 else if c == 50 then 2 else if c == 51 then 3
    else if c == 52 then 4 else if c == 53 then 5 else if c == 54 then 6 else if c == 55 then 7
    else if c == 56 then 8 else 9
  }

  function Digits(n: nat): (s: seq<byte>)
    ensures |s| > 0 && forall i :: 0 <= i < |s| ==> IsDigit(s[i])
  {
    if n < 10 then [DigitChar(n)] else Digits(n / 10) + [DigitChar(n % 10)]
  }

  /** A number below 10^k has at most k digits. */
  lemma {:induction false} DigitsLength(n: nat, k: nat)
    requires n < PowerOfTen(k)
    ensures |Digits(n)| <= if k == 0 then 1 else k
  {
    if n >= 10 {
      DigitsLength(n / 10, k - 1);
    }
  }

  function PowerOfTen(k: nat): nat {
    if k == 0 then 1 else 10 * PowerOfTen(k - 1)
  }

  /** The text of `%d`. */
  function Decimal(n: int): seq<byte> {
    if n < 0 then [MINUS] + Digits(-n) else Digits(n)
  }

  /** The digits at the front of s, appended to the number read so far. */
  function ReadDigits(acc: int, s: seq<byte>): int
    decreases |s|
  {
    if s == [] || !IsDigit(s[0]) then acc else ReadDigits(10 * acc + DigitValue(s[0]), s[1..])
  }

  predicate IsBlank(c: byte) {
    c == SPACE || 9 <= c <= 13
  }

  function Atoi(s: seq<byte>): int {
    if s == [] then 0
    else if IsBlank(s[0]) then Atoi(s[1..])
    else if s[0] == MINUS then -ReadDigits(0, s[1..])
    else if s[0] == PLUS then ReadDigits(0, s[1..])
    else ReadDigits(0, s)
  }

  lemma {:induction false} ReadDigitsConcat(acc: int, a: seq<byte>, b: seq<byte>)
    requires forall i :: 0 <= i < |a| ==> IsDigit(a[i])
    ensures ReadDigits(acc, a + b) == ReadDigits(ReadDigits(acc, a), b)
    decreases |a|
  {
    if a == [] {
      assert a + b == b;
    } else {
      ReadDigitsConcat(10 * acc + DigitValue(a[0]), a[1..], b);
      assert (a + b)[1..] == a[1..] + b;
    }
  }

  lemma {:induction false} ReadDigitsOfDigits(n: nat)
    ensures ReadDigits(0, Digits(n)) == n
  {
    if n < 10 {
      assert Digits(n)[1..] == [];
    } else {
      ReadDigitsOfDigits(n / 10);
      ReadDigitsConcat(0, Digits(n / 10), [DigitChar(n % 10)]);
      assert [DigitChar(n % 10)][1..] == [];
    }
  }

  lemma AtoiOfDecimal(n: int)
    ensures Atoi(Decimal(n)) == n
  {
    if n < 0 {
      ReadDigitsOfDigits(-n);
      assert Decimal(n)[1..] == Digits(-n);
    } else {
      ReadDigitsOfDigits(n);
    }
  }

  /** The number that a row of digits stands for. */
  function NumberOf(digits: seq<byte>): int {
    if digits == [] then 0 else 10 * NumberOf(digits[..|digits| - 1]) + (digits[|digits| - 1] as int - 48)
  }

  predicate AreDigits(s: seq<byte>) {
    forall i :: 0 <= i < |s| ==> 48 <= s[i] <= 57
  }

  lemma DigitValueIs(c: byte)
    requires 48 <= c <= 57
    ensures DigitValue(c) == c as int - 48
  {
  }

  lemma NumberOfLonger(init: seq<byte>, last: byte)
    ensures NumberOf(init + [last]) == 10 * NumberOf(init) + (last as int - 48)
  {
    assert (init + [last])[..|init|] == init;
  }

  lemma DigitNumber(last: byte)
    requires 48 <= last <= 57
    ensures NumberOf([last]) == DigitValue(last)
  {
    DigitValueIs(last);
    NumberOfLonger([], last);
    assert [] + [last] == [last];
  }

  /** Numbers are printed in decimal, without leading zeros. */
  lemma {:induction false} DigitsAre(n: nat)
    ensures AreDigits(Digits(n)) && NumberOf(Digits(n)) == n && Digits(n) != []
    ensures Digits(n)[0] == 48 ==> n == 0 && |Digits(n)| == 1
  {
    var last := DigitChar(n % 10);
    hide DigitChar, NumberOf;
    if n < 10 {
      DigitNumber(last);
    } else {
      hide DigitValue;
      DigitsAre(n / 10);
      DigitValueIs(last);
      NumberOfLonger(Digits(n / 10), last);
    }
  }

  lemma DecimalIs(n: int)
    returns (digits: seq<byte>)
    ensures Decimal(n) == if n < 0 then [45] + digits else digits
    ensures AreDigits(digits) && NumberOf(digits) == (if n < 0 then -n else n)
    ensures digits != [] && (digits[0] == 48 ==> digits == [48])
  {
    digits := Digits(if n < 0 then -n else n);
    DigitsAre(if n < 0 then -n else n);
  }

  lemma {:induction false} ReadDigitsIs(digits: seq<byte>, tail: seq<byte>)
    requires AreDigits(digits) && (tail == [] || !(48 <= tail[0] <= 57))
    ensures ReadDigits(0, digits + tail) == NumberOf(digits)
    decreases |digits|
  {
    hide DigitValue;
    if digits == [] {
      assert digits + tail == tail;
    } else {
      var init, last := digits[..|digits| - 1], digits[|digits| - 1];
      ReadDigitsIs(init, []);
      assert init + [] == init && digits == init + [last] && digits + tail == init + ([last] + tail);
      ReadDigitsConcat(0, init, [last] + tail);
      DigitValueIs(last);
      assert ([last] + tail)[1..] == tail;
    }
  }

  /** atoi skips blanks (section 7.22.1.2 of ISO C11), takes one sign, and reads
      the digits up to the first other byte. */
  lemma {:induction false} AtoiIs(blanks: seq<byte>, sign: seq<byte>, digits: seq<byte>, tail: seq<byte>)
    requires forall i :: 0 <= i < |blanks| ==> blanks[i] == 32 || 9 <= blanks[i] <= 13
    requires sign == [] || sign == [43] || sign == [45]
    requires AreDigits(digits) && (tail == [] || !(48 <= tail[0] <= 57))
    requires digits == [] && sign == [] && tail != [] ==> tail[0] != 32 && !(9 <= tail[0] <= 13) && tail[0] != 43
    requires digits == [] && sign == [] && tail != [] ==> tail[0] != 45
    ensures Atoi(blanks + sign + digits + tail) == if sign == [45] then -NumberOf(digits) else NumberOf(digits)
    decreases |blanks|
  {
    var s := blanks + sign + digits + tail;
    if blanks != [] {
      AtoiIs(blanks[1..], sign, digits, tail);
      assert s[1..] == blanks[1..] + sign + digits + tail;
    } else {
      ReadDigitsIs(digits, tail);
      if sign == [] {
        assert s == digits + tail;
      } else {
        assert s[1..] == digits + tail;
      }
    }
  }

  // ---------- tokens ----------

  /** The delimiters of directory text. */
  predicate IsDelimiter(c: byte) {
    c == NEWLINE || c == SPACE || c == PIPE
  }

  function SkipDelimiters(s: seq<byte>): (t: seq<byte>)
    ensures |t| <= |s|
    ensures t != [] ==> !IsDelimiter(t[0])
    ensures forall c :: c in t ==> c in s
  {
    if s != [] && IsDelimiter(s[0]) then SkipDelimiters(s[1..]) else s
  }

  function LeadingWord(s: seq<byte>): (w: seq<byte>)
    ensures |w| <= |s| && w == s[..|w|]
    ensures forall i :: 0 <= i < |w| ==> !IsDelimiter(w[i])
    ensures |w| < |s| ==> IsDelimiter(s[|w|])
  {
    if s == [] || IsDelimiter(s[0]) then [] else [s[0]] + LeadingWord(s[1..])
  }

  /** A pointer to a string, or NULL. */
  datatype CharPtr = Null | Str(chars: seq<byte>)

  /** One call of strtok (section 7.24.5.8 of ISO C11): the next token and what
      is left after the delimiter that ended it. */
  function Strtok(s: seq<byte>): (r: (CharPtr, seq<byte>))
    ensures r.0.Str? ==> |r.1| < |s| && r.0.chars != []
  {
    var t := SkipDelimiters(s);
    var w := LeadingWord(t);
    if t == [] then (Null, [])
    else (Str(w), if |w| < |t| then t[|w| + 1..] else [])
  }

  function Tokens(s: seq<byte>): seq<seq<byte>>
    decreases |s|
  {
    var (word, rest) := Strtok(s);
    if word.Null? then [] else [word.chars] + Tokens(rest)
  }

  predicate LegalName(name: Name) {
    && name != []
    && forall i :: 0 <= i < |name| ==> !IsDelimiter(name[i]) && name[i] != NUL
  }

  lemma {:induction false} LeadingWordOf(w: seq<byte>, d: byte, rest: seq<byte>)
    requires IsDelimiter(d) && forall i :: 0 <= i < |w| ==> !IsDelimiter(w[i])
    ensures LeadingWord(w + [d] + rest) == w
  {
    var s := w + [d] + rest;
    if w != [] {
      LeadingWordOf(w[1..], d, rest);
      assert s[1..] == w[1..] + [d] + rest;
    }
  }

  lemma TokensOfWord(w: seq<byte>, d: byte, rest: seq<byte>)
    requires w != [] && IsDelimiter(d) && forall i :: 0 <= i < |w| ==> !IsDelimiter(w[i])
    ensures Tokens(w + [d] + rest) == [w] + Tokens(rest)
  {
    var s := w + [d] + rest;
    assert s[0] == w[0];
    LeadingWordOf(w, d, rest);
    assert s[|w| + 1..] == rest;
  }

  lemma {:induction false} TokensAreWords(s: seq<byte>, i: nat)
    requires i < |Tokens(s)|
    ensures Tokens(s)[i] != []
    ensures forall j :: 0 <= j < |Tokens(s)[i]| ==> !IsDelimiter(Tokens(s)[i][j]) && Tokens(s)[i][j] in s
    decreases |s|
  {
    var t := SkipDelimiters(s);
    var w := LeadingWord(t);
    var rest := Strtok(s).1;
    assert forall c :: c in w ==> c in t;
    assert forall c :: c in rest ==> c in t;
    if i > 0 {
      TokensAreWords(rest, i - 1);
      assert Tokens(s)[i] == Tokens(rest)[i - 1];
    }
  }

  /** Bytes i to j of a text are one of its words: a run without newline, space
      and `|` that ends, on either side, at one of them or with the text. */
  predicate IsRun(s: seq<byte>, i: nat, j: nat) {
    && i < j <= |s|
    && (forall p :: i <= p < j ==> s[p] != 10 && s[p] != 32 && s[p] != 124)
    && (i == 0 || s[i - 1] == 10 || s[i - 1] == 32 || s[i - 1] == 124)
    && (j == |s| || s[j] == 10 || s[j] == 32 || s[j] == 124)
  }

  /** Words that begin and end at the given places are runs of the text, one
      behind the other, from o on. */
  predicate InOrder(s: seq<byte>, o: nat, words: seq<seq<byte>>, begin: seq<nat>, end: seq<nat>) {
    && |words| == |begin| == |end|
    && (forall n :: 0 <= n < |words| ==> IsRun(s, begin[n], end[n]) && words[n] == s[begin[n]..end[n]])
    && (forall n :: 0 <= n < |words| ==> o <= begin[n])
    && (forall m, n :: 0 <= m < n < |words| ==> end[m] <= begin[n])
  }

  /** From o on, every byte but newline, space and `|` is in one of them. */
  predicate Covers(s: seq<byte>, o: nat, begin: seq<nat>, end: seq<nat>) {
    && |begin| == |end|
    && forall p :: o <= p < |s| && s[p] != 10 && s[p] != 32 && s[p] != 124 ==>
         exists n :: 0 <= n < |begin| && begin[n] <= p < end[n]
  }

  predicate AreRuns(s: seq<byte>, o: nat, words: seq<seq<byte>>, begin: seq<nat>, end: seq<nat>) {
    InOrder(s, o, words, begin, end) && Covers(s, o, begin, end)
  }

  lemma {:induction false} SkipsDelimiters(s: seq<byte>)
    returns (n: nat)
    ensures n <= |s| && SkipDelimiters(s) == s[n..] && forall p :: 0 <= p < n ==> IsDelimiter(s[p])
  {
    n := 0;
    if s != [] && IsDelimiter(s[0]) {
      n := SkipsDelimiters(s[1..]);
      assert s[1..][n..] == s[n + 1..];
      forall p | 0 <= p < n + 1
        ensures IsDelimiter(s[p])
      {
        assert p > 0 ==> s[p] == s[1..][p - 1];
      }
      n := n + 1;
    }
  }

  /** The first word from o on, and where the next call goes on. */
  lemma NextRun(s: seq<byte>, o: nat)
    returns (i: nat, j: nat)
    requires o < |s| && (o == 0 || IsDelimiter(s[o - 1])) && Strtok(s[o..]).0.Str?
    ensures o <= i < j <= |s| && IsRun(s, i, j) && Strtok(s[o..]).0.chars == s[i..j]
    ensures forall p :: o <= p < i ==> IsDelimiter(s[p])
    ensures Strtok(s[o..]).1 == if j < |s| then s[j + 1..] else []
  {
    var n := SkipsDelimiters(s[o..]);
    hide SkipDelimiters, LeadingWord;
    i := o + n;
    var w := LeadingWord(s[i..]);
    j := i + |w|;
    assert SkipDelimiters(s[o..]) == s[o..][n..] == s[i..];
    assert s[i..][..|w|] == s[i..j] && (j < |s| ==> s[i..][|w|..][1..] == s[j + 1..]);
    forall p | o <= p < i
      ensures IsDelimiter(s[p])
    {
      assert s[p] == s[o..][p - o];
    }
    forall p | i <= p < j
      ensures !IsDelimiter(s[p])
    {
      assert s[p] == w[p - i];
    }
    assert w != [];
  }

  lemma {:induction false} TokensFrom(s: seq<byte>, o: nat)
    returns (begin: seq<nat>, end: seq<nat>)
    requires o <= |s| && (o == 0 || IsDelimiter(s[o - 1]))
    ensures AreRuns(s, o, Tokens(s[o..]), begin, end)
    decreases |s| - o
  {
    begin, end := [], [];
    hide LeadingWord, SkipDelimiters;
    if Strtok(s[o..]).0.Null? {
      var n := SkipsDelimiters(s[o..]);
      forall p | o <= p < |s|
        ensures IsDelimiter(s[p])
      {
        assert s[p] == s[o..][p - o];
      }
    } else {
      var i, j := NextRun(s, o);
      var rest := [];
      if j < |s| {
        begin, end := TokensFrom(s, j + 1);
        rest := Tokens(s[j + 1..]);
        LaterInOrder(s, j + 1, j, rest, begin, end);
      }
      hide InOrder, Covers;
      NothingIsCovered(s, j);
      RunInFront(s, o, i, j, rest, begin, end);
      CoveredInFront(s, o, i, j, begin, end);
      begin, end := [i] + begin, [j] + end;
    }
  }

  lemma RunInFront(s: seq<byte>, o: nat, i: nat, j: nat, words: seq<seq<byte>>, begin: seq<nat>, end: seq<nat>)
    requires o <= i && IsRun(s, i, j) && InOrder(s, j, words, begin, end)
    ensures InOrder(s, o, [s[i..j]] + words, [i] + begin, [j] + end)
  {
    var words', begin', end' := [s[i..j]] + words, [i] + begin, [j] + end;
    forall n | 0 <= n < |words'|
      ensures IsRun(s, begin'[n], end'[n]) && words'[n] == s[begin'[n]..end'[n]]
      ensures o <= begin'[n]
    {
      if n > 0 {
        assert words'[n] == words[n - 1] && begin'[n] == begin[n - 1] && end'[n] == end[n - 1];
      }
    }
  }

  lemma CoveredInFront(s: seq<byte>, o: nat, i: nat, j: nat, begin: seq<nat>, end: seq<nat>)
    requires o <= i < j <= |s| && (j == |s| || IsDelimiter(s[j])) && forall p :: o <= p < i ==> IsDelimiter(s[p])
    requires Covers(s, j + 1, begin, end)
    ensures Covers(s, o, [i] + begin, [j] + end)
  {
    var begin', end' := [i] + begin, [j] + end;
    forall p | o <= p < |s| && s[p] != 10 && s[p] != 32 && s[p] != 124
      ensures exists n :: 0 <= n < |begin'| && begin'[n] <= p < end'[n]
    {
      if p < j {
        assert begin'[0] <= p < end'[0];
      } else if p > j {
        var n :| 0 <= n < |begin| && begin[n] <= p < end[n];
        assert begin'[n + 1] <= p < end'[n + 1];
      }
    }
  }

  lemma NothingIsCovered(s: seq<byte>, j: nat)
    ensures j >= |s| ==> InOrder(s, j, [], [], []) && Covers(s, j + 1, [], [])
  {
  }

  lemma LaterInOrder(s: seq<byte>, o: nat, o': nat, words: seq<seq<byte>>, begin: seq<nat>, end: seq<nat>)
    requires o' <= o && InOrder(s, o, words, begin, end)
    ensures InOrder(s, o', words, begin, end)
  {
  }

  /** The tokens of any text are its words: all its runs of bytes other than
      newline, space and `|`, in order, the last one included. */
  lemma TokensAreRuns(s: seq<byte>)
    returns (begin: seq<nat>, end: seq<nat>)
    ensures AreRuns(s, 0, Tokens(s), begin, end)
  {
    begin, end := TokensFrom(s, 0);
    assert s[0..] == s;
  }

  /** Any name but the empty one may be used, unless it has a newline, a space,
      a `|` or a NUL in it. */
  lemma LegalNameIs(name: Name)
    ensures LegalName(name) <==>
      name != [] && forall i :: 0 <= i < |name| ==> name[i] != 0 && name[i] != 10 && name[i] != 32 && name[i] != 124
  {
  }

  // ---------- printing ----------

  function Line(e: Entry): seq<byte> {
    e.name + [PIPE] + Decimal(e.num) + [NEWLINE]
  }

  function Print(es: seq<Entry>): seq<byte> {
    if es == [] then [] else Line(es[0]) + Print(es[1..])
  }

  /** The text of a directory, line by line: name, `|`, number and newline. */
  lemma PrintIs(es: seq<Entry>)
    ensures Print([]) == []
    ensures es != [] ==> Print(es) == es[0].name + [124] + Decimal(es[0].num) + [10] + Print(es[1..])
  {
  }

  lemma {:induction false} PrintConcat(a: seq<Entry>, b: seq<Entry>)
    ensures Print(a + b) == Print(a) + Print(b)
  {
    hide Line;
    if a == [] {
      assert a + b == b;
    } else {
      PrintConcat(a[1..], b);
      assert (a + b)[0] == a[0] && (a + b)[1..] == a[1..] + b;
      ConcatAssociates(Line(a[0]), Print(a[1..]), Print(b));
    }
  }

  /** The buffer handed to the inode: the text in a block of zeros. A text that
      leaves no room for its NUL would overrun the buffer; what is then written
      is its first block. */
  function PrintBlock(es: seq<Entry>, bpb: nat): (r: seq<byte>)
    ensures |r| == bpb
  {
    var text := Print(es);
    if |text| < bpb then text + Zeros(bpb - |text|) else text[..bpb]
  }

  predicate Fits(es: seq<Entry>, bpb: int) {
    |Print(es)| < bpb
  }

  // ---------- parsing ----------

  function Pairs(words: seq<seq<byte>>): (es: seq<Entry>)
    ensures |es| == |words| / 2
  {
    if |words| < 2 then [] else [Entry(words[0], Atoi(words[1]))] + Pairs(words[2..])
  }

  /** The words that the loader gets from a buffer: two per `|` it counted. */
  function Words(buf: seq<byte>): seq<seq<byte>> {
    var text := CString(buf);
    var items := 2 * CountOccurrences(text, PIPE);
    Tokens(text)[..Min(items, |Tokens(text)|)]
  }

  function Parse(buf: seq<byte>): seq<Entry> {
    Pairs(Words(buf))
  }

  lemma {:induction false} PairsAre(words: seq<seq<byte>>, i: nat)
    requires 2 * i + 1 < |words|
    ensures i < |Pairs(words)| && Pairs(words)[i] == Entry(words[2 * i], Atoi(words[2 * i + 1]))
  {
    if i > 0 {
      PairsAre(words[2..], i - 1);
    }
  }

  /** What loading makes of any buffer: its text has some words and some pipes,
      and each pipe counts for one entry, as long as there are words. */
  lemma ParseIs(buf: seq<byte>)
    returns (words: seq<seq<byte>>, pipes: nat)
    ensures words == Tokens(CString(buf))
    ensures pipes == |set i | 0 <= i < |CString(buf)| && CString(buf)[i] == 124|
    ensures |Parse(buf)| == Min(pipes, |words| / 2)
    ensures forall i :: 0 <= i < |Parse(buf)| ==> Parse(buf)[i] == Entry(words[2 * i], Atoi(words[2 * i + 1]))
  {
    words, pipes := Tokens(CString(buf)), CountOccurrences(CString(buf), 124);
    CountOccurrencesIs(CString(buf), 124);
    hide Tokens, CString, CountOccurrences, Atoi;
    forall i: nat | i < |Parse(buf)|
      ensures Parse(buf)[i] == Entry(words[2 * i], Atoi(words[2 * i + 1]))
    {
      PairsAre(Words(buf), i);
    }
  }

  /** The size of a C pointer. */
  const POINTER_BYTES: nat := 8

  /** The loader keeps its pointers to the words in one block of bytes: two for
      each `|`, and a NULL behind them. */
  predicate PointersFit(pipes: nat, bpb: nat) {
    POINTER_BYTES * (2 * pipes + 1) <= bpb
  }

  function Pipes(buf: seq<byte>): nat {
    CountOccurrences(CString(buf), PIPE)
  }

  // ---------- the round trip ----------

  function EntryWords(es: seq<Entry>): (ws: seq<seq<byte>>)
    ensures |ws| == 2 * |es|
  {
    if es == [] then [] else [es[0].name, Decimal(es[0].num)] + EntryWords(es[1..])
  }

  lemma DecimalIsWord(n: int)
    ensures Decimal(n) != []
    ensures forall i :: 0 <= i < |Decimal(n)| ==> !IsDelimiter(Decimal(n)[i]) && Decimal(n)[i] != NUL
  {
  }

  lemma LineSplits(name: seq<byte>, number: seq<byte>, rest: seq<byte>)
    ensures name + [PIPE] + number + [NEWLINE] + rest == name + [PIPE] + (number + [NEWLINE] + rest)
  {
  }

  lemma {:induction false} TokensOfPrint(es: seq<Entry>)
    requires forall i :: 0 <= i < |es| ==> LegalName(es[i].name)
    ensures Tokens(Print(es)) == EntryWords(es)
  {
    if es != [] {
      hide Tokens, Decimal, IsDelimiter;
      var number, rest := Decimal(es[0].num), Print(es[1..]);
      DecimalIsWord(es[0].num);
      TokensOfPrint(es[1..]);
      LineSplits(es[0].name, number, rest);
      assert Print(es) == es[0].name + [PIPE] + (number + [NEWLINE] + rest);
      hide Print;
      TokensOfWord(es[0].name, PIPE, number + [NEWLINE] + rest);
      TokensOfWord(number, NEWLINE, rest);
    }
  }

  lemma {:induction false} PipesOfPrint(es: seq<Entry>)
    requires forall i :: 0 <= i < |es| ==> LegalName(es[i].name)
    ensures CountOccurrences(Print(es), PIPE) == |es| && NUL !in Print(es)
  {
    hide Decimal;
    if es != [] {
      var name, number, rest := es[0].name, Decimal(es[0].num), Print(es[1..]);
      DecimalIsWord(es[0].num);
      PipesOfPrint(es[1..]);
      CountOccurrencesOfAbsent(name, PIPE);
      CountOccurrencesOfAbsent(number + [NEWLINE], PIPE);
      assert name + [PIPE] + number + [NEWLINE] == (name + [PIPE]) + (number + [NEWLINE]);
      CountOccurrencesConcat(name + [PIPE], number + [NEWLINE], PIPE);
      CountOccurrencesConcat(name, [PIPE], PIPE);
      CountOccurrencesConcat(Line(es[0]), rest, PIPE);
    }
  }

  lemma {:induction false} PairsOfEntryWords(es: seq<Entry>)
    ensures Pairs(EntryWords(es)) == es
  {
    if es != [] {
      AtoiOfDecimal(es[0].num);
      PairsOfEntryWords(es[1..]);
      assert EntryWords(es)[2..] == EntryWords(es[1..]);
    }
  }

  lemma PairsAreWords(words: seq<seq<byte>>, i: nat)
    requires i < |Pairs(words)|
    ensures 2 * i < |words| && Pairs(words)[i].name == words[2 * i]
  {
    if i > 0 {
      PairsAreWords(words[2..], i - 1);
    }
  }

  lemma PrintBlockIsPadded(es: seq<Entry>, bpb: nat)
    requires Fits(es, bpb) && NUL !in Print(es)
    ensures CString(PrintBlock(es, bpb)) == Print(es) && NUL in PrintBlock(es, bpb)
  {
    CStringOfPadded(Print(es), Zeros(bpb - |Print(es)|));
    PaddedHasNul(Print(es), bpb);
  }

  /** Loading printed text finds two words per entry and stops inside the block. */
  lemma WordsOfPrint(es: seq<Entry>, bpb: nat)
    requires Fits(es, bpb) && forall i :: 0 <= i < |es| ==> LegalName(es[i].name)
    ensures Words(PrintBlock(es, bpb)) == EntryWords(es) && NUL in PrintBlock(es, bpb)
    ensures Parse(PrintBlock(es, bpb)) == es && Pipes(PrintBlock(es, bpb)) == |es|
  {
    PipesOfPrint(es);
    PrintBlockIsPadded(es, bpb);
    WordsOfText(PrintBlock(es, bpb), es);
    PairsOfEntryWords(es);
  }

  lemma WordsOfText(buf: seq<byte>, es: seq<Entry>)
    requires CString(buf) == Print(es) && forall i :: 0 <= i < |es| ==> LegalName(es[i].name)
    ensures Words(buf) == EntryWords(es)
  {
    PipesOfPrint(es);
    TokensOfPrint(es);
  }

  lemma PaddedHasNul(text: seq<byte>, bpb: nat)
    requires |text| < bpb
    ensures NUL in text + Zeros(bpb - |text|)
  {
    assert (text + Zeros(bpb - |text|))[|text|] == NUL;
  }

  lemma WordIsLegal(text: seq<byte>, i: nat)
    requires NUL !in text && i < |Tokens(text)|
    ensures LegalName(Tokens(text)[i])
  {
    TokensAreWords(text, i);
  }

  /** A directory printed into its block is loaded back, same children, same
      order, exactly when no name is empty or has a newline, a space or a `|` in it.
      (Names are C strings, so they hold no NUL.) */
  lemma PrintParseRoundTrip(es: seq<Entry>, bpb: nat)
    requires Fits(es, bpb) && forall i :: 0 <= i < |es| ==> NUL !in es[i].name
    ensures Parse(PrintBlock(es, bpb)) == es <==>
      forall i :: 0 <= i < |es| ==> es[i].name != [] && 10 !in es[i].name && 32 !in es[i].name && 124 !in es[i].name
  {
    forall i | 0 <= i < |es|
      ensures LegalName(es[i].name) <==>
        es[i].name != [] && 10 !in es[i].name && 32 !in es[i].name && 124 !in es[i].name
    {
      LegalNameIs(es[i].name);
    }
    hide LegalName;
    var buf := PrintBlock(es, bpb);
    if forall i :: 0 <= i < |es| ==> LegalName(es[i].name) {
      WordsOfPrint(es, bpb);
    }
    if Parse(buf) == es {
      forall i: nat | i < |es|
        ensures LegalName(es[i].name)
      {
        PairsAreWords(Words(buf), i);
        WordIsLegal(CString(buf), 2 * i);
      }
    }
  }

  /** A block of zeros is a directory without entries. */
  lemma ParseOfZeros(bpb: nat)
    ensures Parse(Zeros(bpb)) == [] && Words(Zeros(bpb)) == [] && Pipes(Zeros(bpb)) == 0
  {
    CStringOfPadded([], Zeros(bpb));
    assert [] + Zeros(bpb) == Zeros(bpb);
  }
}
