// The string helpers that the instruction loader relies on: the behaviour of
// compress_whitespace, string_pop_word, string_pop and string_get as the
// loader's own comments illustrate them, and std::stoi. The header that
// implements them (tools/string_utils.h) is not part of this model, so each is
// defined here by the meaning its callers depend on.
module StringUtils {
  import opened Wrappers

  /** The characters compress_whitespace treats as whitespace. */
  predicate IsWhitespace(c: char) {
    c == ' ' || c == '\n' || c == '\r' || c == '\t'
  }

  /** The characters std::stoi skips before a number (C's isspace). */
  predicate IsCSpace(c: char) {
    c == ' ' || c == '\t' || c == '\n' || c == '\U{B}' || c == '\U{C}' || c == '\r'
  }

  predicate IsDigit(c: char) {
    '0' <= c <= '9'
  }

  /** Index of the first occurrence of d in s, or |s| when d does not occur. */
  function IndexOf(s: string, d: char): (k: nat)
    ensures k <= |s|
    ensures d !in s[..k]
    ensures k < |s| <==> d in s
    ensures k < |s| ==> s[k] == d
  {
    if s == [] then 0
    else if s[0] == d then 0
    else
      assert s[1..][..IndexOf(s[1..], d)] == s[1..1 + IndexOf(s[1..], d)];
      1 + IndexOf(s[1..], d)
  }

  /**
   * string_pop(s, delim): removes and returns everything up to the first delim;
   * the delimiter itself is dropped. Without a delimiter the whole string is
   * popped and nothing remains.
   */
  function StringPop(s: string, delim: char): (r: (string, string))
    ensures delim !in r.0
    ensures delim in s ==> s == r.0 + [delim] + r.1
    ensures delim !in s ==> r == (s, "")
    ensures |r.0| + |r.1| <= |s|
  {
    var k := IndexOf(s, delim);
    if k == |s| then (s, "")
    else
      assert s == s[..k] + [delim] + s[k + 1..];
      (s[..k], s[k + 1..])
  }

  /** Popping at a delimiter the head lacks splits exactly there. */
  lemma {:induction false} StringPopSplit(head: string, delim: char, tail: string)
    requires delim !in head
    ensures StringPop(head + [delim] + tail, delim) == (head, tail)
  {
    var s := head + [delim] + tail;
    assert s[..|head|] == head;
    assert s[|head| + 1..] == tail;
    IndexOfAt(s, delim, |head|);
  }

  lemma IndexOfAt(s: string, d: char, k: nat)
    requires k < |s| && s[k] == d && d !in s[..k]
    ensures IndexOf(s, d) == k
  {
  }

  /** string_get(s, delim): the part string_pop would return, leaving s alone. */
  function StringGet(s: string, delim: char): (r: string)
    ensures delim !in r
    ensures r <= s
    ensures r == s <==> delim !in s
  {
    StringPop(s, delim).0
  }

  /**
   * string_pop_word(s): pops the first word of a string whose whitespace has
   * already been compressed to single spaces.
   */
  function StringPopWord(s: string): (r: (string, string))
    ensures ' ' !in r.0
    ensures ' ' in s ==> s == r.0 + " " + r.1
    ensures ' ' !in s ==> r == (s, "")
    ensures s != [] ==> |r.1| < |s|
  {
    StringPop(s, ' ')
  }

  // ---------------------------------------------------------------------
  // Words, and compress_whitespace
  // ---------------------------------------------------------------------

  /** Length of the leading run of non-whitespace characters of s. */
  function WordEnd(s: string): (k: nat)
    ensures k <= |s|
    ensures forall i :: 0 <= i < k ==> !IsWhitespace(s[i])
    ensures k < |s| ==> IsWhitespace(s[k])
  {
    if s == [] || IsWhitespace(s[0]) then 0 else 1 + WordEnd(s[1..])
  }

  /** A word: a non-empty run of non-whitespace characters. */
  predicate IsWord(w: string) {
    w != [] && forall i :: 0 <= i < |w| ==> !IsWhitespace(w[i])
  }

  /** The maximal runs of non-whitespace characters of s, in order. */
  function Words(s: string): (ws: seq<string>)
    ensures forall i :: 0 <= i < |ws| ==> IsWord(ws[i])
    decreases |s|
  {
    if s == [] then []
    else if IsWhitespace(s[0]) then Words(s[1..])
    else
      var k := WordEnd(s);
      [s[..k]] + Words(s[k..])
  }

  /** The words of ws separated by single spaces. */
  function Join(ws: seq<string>): string {
    if ws == [] then ""
    else if |ws| == 1 then ws[0]
    else ws[0] + " " + Join(ws[1..])
  }

  /**
   * compress_whitespace: leading and trailing whitespace removed and every
   * inner run of whitespace replaced by one space.
   */
  function CompressWhitespace(s: string): (r: string) {
    Join(Words(s))
  }

  /** The words string_pop_word hands out, one per call, until s is empty. */
  function Tokens(s: string): seq<string>
    decreases |s|
  {
    if s == [] then []
    else
      var (w, rest) := StringPopWord(s);
      [w] + Tokens(rest)
  }

  lemma {:induction false} TokensOfJoin(ws: seq<string>)
    requires forall i :: 0 <= i < |ws| ==> IsWord(ws[i])
    ensures Tokens(Join(ws)) == ws
    decreases |ws|
  {
    if |ws| == 1 {
      TokensOfWord(ws[0]);
    } else if |ws| > 1 {
      TokensOfJoin(ws[1..]);
      TokensOfWordSpace(ws[0], Join(ws[1..]));
      assert [ws[0]] + ws[1..] == ws;
    }
  }

  lemma NoSpaceInWord(w: string)
    requires IsWord(w)
    ensures ' ' !in w
  {
    forall i | 0 <= i < |w| ensures w[i] != ' ' {
      assert !IsWhitespace(w[i]);
    }
  }

  lemma TokensOfWord(w: string)
    requires IsWord(w)
    ensures Tokens(w) == [w]
  {
    NoSpaceInWord(w);
    assert StringPopWord(w) == (w, "");
  }

  lemma TokensOfWordSpace(w: string, t: string)
    requires IsWord(w)
    ensures Tokens(w + " " + t) == [w] + Tokens(t)
  {
    NoSpaceInWord(w);
    StringPopSplit(w, ' ', t);
    assert w + " " + t == w + [' '] + t;
  }

  /** Popping words off a compressed string yields exactly its words. */
  lemma TokensOfCompressed(s: string)
    ensures Tokens(CompressWhitespace(s)) == Words(s)
  {
    TokensOfJoin(Words(s));
  }

  /** Splitting a compressed string into words gives back the words it was joined from. */
  lemma {:induction false} WordsOfJoin(ws: seq<string>)
    requires forall i :: 0 <= i < |ws| ==> IsWord(ws[i])
    ensures Words(Join(ws)) == ws
    decreases |ws|
  {
    if |ws| == 1 {
      WordsOfWord(ws[0]);
    } else if |ws| > 1 {
      WordsOfJoin(ws[1..]);
      WordsOfWordSpace(ws[0], Join(ws[1..]));
      assert [ws[0]] + ws[1..] == ws;
    }
  }

  lemma WordsOfWord(w: string)
    requires IsWord(w)
    ensures Words(w) == [w]
  {
    WordOfWord(w);
    assert w[..|w|] == w;
    assert Words(w[|w|..]) == [] by { assert w[|w|..] == []; }
  }

  lemma WordsOfWordSpace(w: string, t: string)
    requires IsWord(w)
    ensures Words(w + " " + t) == [w] + Words(t)
  {
    var s := w + " " + t;
    assert s == w + (" " + t);
    WordEndPrefix(w, " " + t);
    assert s[..|w|] == w;
    assert s[|w|..] == " " + t;
    WordsOfSpace(t);
  }

  lemma WordsOfSpace(t: string)
    ensures Words(" " + t) == Words(t)
  {
    assert (" " + t)[1..] == t;
  }

  lemma WordOfWord(w: string)
    requires IsWord(w)
    ensures WordEnd(w) == |w|
  {
  }

  lemma {:induction false} WordEndPrefix(w: string, t: string)
    requires IsWord(w)
    requires t != [] && IsWhitespace(t[0])
    ensures WordEnd(w + t) == |w|
    decreases |w|
  {
    assert (w + t)[0] == w[0];
    if |w| == 1 {
      assert (w + t)[1..] == t;
    } else {
      assert (w + t)[1..] == w[1..] + t;
      assert IsWord(w[1..]) by {
        forall i | 0 <= i < |w[1..]| ensures !IsWhitespace(w[1..][i]) {
          assert w[1..][i] == w[i + 1];
        }
      }
      WordEndPrefix(w[1..], t);
    }
  }

  lemma CompressIdempotent(s: string)
    ensures CompressWhitespace(CompressWhitespace(s)) == CompressWhitespace(s)
  {
    WordsOfJoin(Words(s));
  }

  // ---------------------------------------------------------------------
  // std::stoi
  // ---------------------------------------------------------------------

  const IntMin: int := -0x8000_0000
  const IntMax: int := 0x7FFF_FFFF

  function DigitValue(c: char): (d: nat)
    requires IsDigit(c)
    ensures d < 10
  {
    c as int - '0' as int
  }

  /** Length of the leading run of decimal digits of s. */
  function DigitRun(s: string): (k: nat)
    ensures k <= |s|
    ensures forall i :: 0 <= i < k ==> IsDigit(s[i])
    ensures k < |s| ==> !IsDigit(s[k])
  {
    if s == [] || !IsDigit(s[0]) then 0 else 1 + DigitRun(s[1..])
  }

  /** The number a string of decimal digits denotes. */
  function DigitsValue(ds: string): nat
    requires forall i :: 0 <= i < |ds| ==> IsDigit(ds[i])
  {
    if ds == [] then 0
    else DigitsValue(ds[..|ds| - 1]) * 10 + DigitValue(ds[|ds| - 1])
  }

  /** Characters std::stoi skips before the number. */
  function SpaceRun(s: string): (k: nat)
    ensures k <= |s|
    ensures k < |s| ==> !IsCSpace(s[k])
  {
    if s == [] || !IsCSpace(s[0]) then 0 else 1 + SpaceRun(s[1..])
  }

  /**
   * std::stoi in base 10: optional leading whitespace, an optional sign and at
   * least one digit; the number ends at the first non-digit. None stands for
   * the exception it throws: invalid_argument when there is no digit,
   * out_of_range when the value does not fit a 32-bit int.
   */
  function Stoi(s: string): (r: Option<int>)
    ensures r.Some? ==> IntMin <= r.value <= IntMax
  {
    var t := s[SpaceRun(s)..];
    var negative := |t| > 0 && t[0] == '-';
    var body := if |t| > 0 && (t[0] == '-' || t[0] == '+') then t[1..] else t;
    var n := DigitRun(body);
    if n == 0 then None
    else
      var magnitude: int := DigitsValue(body[..n]);
      var v: int := if negative then -magnitude else magnitude;
      if v < IntMin || v > IntMax then None else Some(v)
  }

  /** Decimal rendering of a natural number, without leading zeros. */
  function NatToString(n: nat): (s: string)
    ensures |s| > 0
    ensures forall i :: 0 <= i < |s| ==> IsDigit(s[i])
  {
    var last := ['0' + (n % 10) as char];
    if n < 10 then last else NatToString(n / 10) + last
  }

  lemma {:induction false} DigitsValueOfNatToString(n: nat)
    ensures DigitsValue(NatToString(n)) == n
  {
    var s := NatToString(n);
    if n >= 10 {
      DigitsValueOfNatToString(n / 10);
      assert s[..|s| - 1] == NatToString(n / 10);
    }
  }

  lemma DigitRunAll(ds: string)
    requires forall i :: 0 <= i < |ds| ==> IsDigit(ds[i])
    ensures DigitRun(ds) == |ds|
  {
  }

  /** std::stoi reads back every int that std::to_string writes. */
  lemma StoiOfDecimal(v: int)
    requires IntMin <= v <= IntMax
    ensures v >= 0 ==> Stoi(NatToString(v)) == Some(v)
    ensures v < 0 ==> Stoi("-" + NatToString(-v)) == Some(v)
  {
    if v >= 0 {
      StoiOfNatString(v);
    } else {
      StoiOfNegatedString(-v);
    }
  }

  lemma StoiOfNatString(n: nat)
    requires n <= IntMax
    ensures Stoi(NatToString(n)) == Some(n)
  {
    var s := NatToString(n);
    assert !IsCSpace(s[0]);
    assert s[SpaceRun(s)..] == s;
    DigitRunAll(s);
    assert s[..|s|] == s;
    DigitsValueOfNatToString(n);
  }

  lemma StoiOfNegatedString(n: nat)
    requires 0 < n <= -IntMin
    ensures Stoi("-" + NatToString(n)) == Some(-(n as int))
  {
    var d := NatToString(n);
    var s := "-" + d;
    assert !IsCSpace(s[0]);
    assert s[SpaceRun(s)..] == s;
    assert s[1..] == d;
    DigitRunAll(d);
    assert d[..|d|] == d;
    DigitsValueOfNatToString(n);
  }

  /** A string that does not start with space, a sign or a digit makes std::stoi throw. */
  lemma StoiRejectsNoDigits(s: string)
    requires s == [] || (!IsDigit(s[0]) && !IsCSpace(s[0]) && s[0] != '-' && s[0] != '+')
    ensures Stoi(s) == None
  {
  }
}
