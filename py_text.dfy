/**
 * The pieces of Python's text handling the solutions parse their input with:
 * `str.split()` (runs of whitespace), `str.split(sep)` (a fixed separator) and
 * `int(text)` (base 10).
 */
module PyText {
  import opened Wrappers

  // ---------------------------------------------------------------------------
  // Whitespace and words
  // ---------------------------------------------------------------------------

  /** The ASCII characters `str.split()` and `int()` treat as whitespace. */
  predicate IsSpace(c: char)
  {
    c == ' ' || ('\t' <= c <= '\r') || (28 <= c as int <= 31)
  }

  predicate NoSpace(s: string)
  {
    forall i :: 0 <= i < |s| ==> !IsSpace(s[i])
  }

  /** The length of the run of non-whitespace characters `s` starts with. */
  function WordLength(s: string): (n: nat)
    ensures n <= |s| && NoSpace(s[..n]) && (n < |s| ==> IsSpace(s[n]))
  {
    if s == [] || IsSpace(s[0]) then 0
    else
      var n := WordLength(s[1..]);
      assert s[..n + 1] == [s[0]] + s[1..][..n];
      n + 1
  }

  /** `s.split()`: the maximal runs of non-whitespace characters, in order. */
  function Words(s: string): (r: seq<string>)
    ensures forall i :: 0 <= i < |r| ==> r[i] != [] && NoSpace(r[i])
    decreases |s|
  {
    if s == [] then []
    else if IsSpace(s[0]) then Words(s[1..])
    else
      var n := WordLength(s);
      [s[..n]] + Words(s[n..])
  }

  /** The words joined by single spaces. */
  function Unwords(ws: seq<string>): string
  {
    if ws == [] then [] else if |ws| == 1 then ws[0] else ws[0] + " " + Unwords(ws[1..])
  }

  /** A word is read up to the first whitespace after it. */
  lemma WordLengthOfWord(w: string, rest: string)
    requires NoSpace(w)
    requires rest == [] || IsSpace(rest[0])
    ensures WordLength(w + rest) == |w|
    decreases |w|
  {
    if w != [] {
      assert (w + rest)[1..] == w[1..] + rest;
      WordLengthOfWord(w[1..], rest);
    } else {
      assert w + rest == rest;
    }
  }

  /** Splitting words joined by single spaces gives back the words. */
  lemma {:induction false} WordsUnwords(ws: seq<string>)
    requires forall i :: 0 <= i < |ws| ==> ws[i] != [] && NoSpace(ws[i])
    ensures Words(Unwords(ws)) == ws
  {
    if |ws| == 1 {
      WordLengthOfWord(ws[0], []);
      assert ws[0] + [] == ws[0];
      assert ws[0][|ws[0]|..] == [];
    } else if |ws| > 1 {
      var rest := Unwords(ws[1..]);
      var s := ws[0] + " " + rest;
      assert s == ws[0] + (" " + rest);
      WordLengthOfWord(ws[0], " " + rest);
      assert s[..|ws[0]|] == ws[0];
      assert s[|ws[0]|..] == " " + rest;
      assert (" " + rest)[1..] == rest;
      WordsUnwords(ws[1..]);
      assert [ws[0]] + ws[1..] == ws;
    }
  }

  // ---------------------------------------------------------------------------
  // Splitting on a separator
  // ---------------------------------------------------------------------------

  /** `sep` occurs in `s` at position `i`. */
  predicate OccursAt(s: string, sep: string, i: int)
  {
    0 <= i && i + |sep| <= |s| && s[i..i + |sep|] == sep
  }

  /** `s.find(sep)`: the first position `sep` occurs at, or none. */
  function Find(s: string, sep: string): (r: Option<nat>)
    requires sep != []
    ensures r.Some? ==> OccursAt(s, sep, r.value)
    decreases |s|
  {
    if |s| < |sep| then None
    else if s[..|sep|] == sep then Some(0)
    else
      match Find(s[1..], sep)
      case None => None
      case Some(i) =>
        assert s[1..][i..i + |sep|] == s[i + 1..i + 1 + |sep|];
        Some(i + 1)
  }

  /** `find` gives the first occurrence: there is none before it, and none at all when it fails. */
  lemma {:induction false} FindFirst(s: string, sep: string, j: int)
    requires sep != [] && 0 <= j
    requires Find(s, sep).Some? ==> j < Find(s, sep).value
    ensures !OccursAt(s, sep, j)
    decreases |s|
  {
    if |s| < |sep| || s[..|sep|] == sep {
    } else if j == 0 {
      assert s[0..|sep|] == s[..|sep|];
    } else {
      FindSkip(s, sep);
      assert OccursAt(s, sep, j) ==> OccursAt(s[1..], sep, j - 1) by {
        if OccursAt(s, sep, j) {
          assert s[1..][j - 1..j - 1 + |sep|] == s[j..j + |sep|];
        }
      }
      FindFirst(s[1..], sep, j - 1);
    }
  }

  /** `s.split(sep)`: the pieces between the occurrences of `sep`, left to right. */
  function Split(s: string, sep: string): (r: seq<string>)
    requires sep != []
    ensures |r| >= 1
    decreases |s|
  {
    match Find(s, sep)
    case None => [s]
    case Some(i) => [s[..i]] + Split(s[i + |sep|..], sep)
  }

  /**
   * A split has a second piece exactly when the separator occurs; the first piece is
   * then the text before the first occurrence, and holds no separator.
   */
  lemma SplitHead(s: string, sep: string)
    requires sep != []
    ensures |Split(s, sep)| >= 2 <==> Find(s, sep).Some?
    ensures |Split(s, sep)| >= 2 ==> Split(s, sep)[0] + sep <= s && Find(Split(s, sep)[0], sep).None?
  {
    if Find(s, sep).Some? {
      SplitPiecesFree(s, sep);
      var i := Find(s, sep).value;
      assert Split(s, sep)[0] + sep == s[..i + |sep|];
    }
  }

  /** `sep.join(parts)`. */
  function Join(parts: seq<string>, sep: string): string
  {
    if parts == [] then [] else if |parts| == 1 then parts[0] else parts[0] + sep + Join(parts[1..], sep)
  }

  /** Joining the pieces of a split with the separator gives back the text. */
  lemma {:induction false} JoinSplit(s: string, sep: string)
    requires sep != []
    ensures Join(Split(s, sep), sep) == s
    decreases |s|
  {
    match Find(s, sep)
    case None =>
    case Some(i) =>
      var rest := s[i + |sep|..];
      JoinSplit(rest, sep);
      JoinCons(s[..i], Split(rest, sep), sep);
      SplitAround(s, i, |sep|);
  }

  lemma JoinCons(head: string, tail: seq<string>, sep: string)
    requires tail != []
    ensures Join([head] + tail, sep) == head + sep + Join(tail, sep)
  {
    assert ([head] + tail)[1..] == tail;
  }

  lemma SplitAround(s: string, i: nat, n: nat)
    requires i + n <= |s|
    ensures s == s[..i] + s[i..i + n] + s[i + n..]
  {
  }

  /** No piece of a split contains the separator. */
  lemma {:induction false} SplitPiecesFree(s: string, sep: string)
    requires sep != []
    ensures forall k :: 0 <= k < |Split(s, sep)| ==> Find(Split(s, sep)[k], sep).None?
    decreases |s|
  {
    match Find(s, sep)
    case None =>
    case Some(i) =>
      SplitPiecesFree(s[i + |sep|..], sep);
      var head := s[..i];
      if Find(head, sep).Some? {
        var j := Find(head, sep).value;
        assert head[j..j + |sep|] == s[j..j + |sep|];
        FindFirst(s, sep, j);
      }
  }

  /** A prefix without the separator's first character holds no occurrence of it. */
  lemma {:induction false} FindPast(a: string, b: string, sep: string)
    requires sep != []
    requires forall k :: 0 <= k < |a| ==> a[k] != sep[0]
    ensures Find(a + b, sep) == if Find(b, sep).None? then None else Some(|a| + Find(b, sep).value)
    decreases |a|
  {
    if a == [] {
      assert a + b == b;
    } else {
      var s := a + b;
      if |s| < |sep| {
        assert Find(s, sep).None? && Find(b, sep).None?;
      } else {
        var tail := a[1..] + b;
        assert s[1..] == tail;
        assert s[..|sep|][0] == a[0] != sep[0];
        FindSkip(s, sep);
        FindPast(a[1..], b, sep);
        assert Find(tail, sep).None? == Find(b, sep).None?;
      }
    }
  }

  /** Where the separator does not start the text, the search goes on one character on. */
  lemma FindSkip(s: string, sep: string)
    requires sep != [] && |s| >= |sep| && s[..|sep|] != sep
    ensures Find(s, sep) == if Find(s[1..], sep).None? then None else Some(Find(s[1..], sep).value + 1)
  {
    match Find(s[1..], sep)
    case None =>
    case Some(i) =>
  }

  /** Text appended after the first occurrence does not move it. */
  lemma {:induction false} FindExtend(w: string, t: string, sep: string)
    requires sep != [] && Find(w, sep).Some?
    ensures Find(w + t, sep) == Find(w, sep)
    decreases |w|
  {
    assert |w| >= |sep|;
    assert (w + t)[..|sep|] == w[..|sep|];
    if w[..|sep|] != sep {
      assert (w + t)[1..] == w[1..] + t;
      FindExtend(w[1..], t, sep);
    }
  }

  /** No character of `s` is `c`. */
  predicate Lacks(s: string, c: char)
  {
    forall k :: 0 <= k < |s| ==> s[k] != c
  }

  /** The separator is found at the start of a text that starts with it. */
  lemma FindAtStart(sep: string, t: string)
    requires sep != []
    ensures Find(sep + t, sep) == Some(0)
  {
    assert (sep + t)[..|sep|] == sep;
  }

  /** Splitting at the one occurrence of the separator gives the two sides. */
  lemma SplitOnce(s: string, sep: string, t: string)
    requires sep != [] && Lacks(s, sep[0]) && Lacks(t, sep[0])
    ensures Split(s + sep + t, sep) == [s, t]
  {
    var whole := s + sep + t;
    FindAtStart(sep, t);
    FindPast(s, sep + t, sep);
    assert s + (sep + t) == whole;
    assert whole[..|s|] == s && whole[|s| + |sep|..] == t;
    FindPast(t, [], sep);
    assert t + [] == t;
  }

  /** The first piece of a split starts with a prefix that lacks the separator's first character. */
  lemma SplitHeadPast(a: string, b: string, sep: string)
    requires sep != [] && Lacks(a, sep[0])
    ensures |Split(a + b, sep)[0]| >= |a| && Split(a + b, sep)[0][..|a|] == a
  {
    FindPast(a, b, sep);
  }

  /** The first piece of a split is what comes before the separator. */
  lemma SplitHeadAt(w: string, x: string, sep: string)
    requires sep != [] && Lacks(x, sep[0])
    requires |w| >= |x| + |sep| && w[..|x| + |sep|] == x + sep
    ensures Split(w, sep)[0] == x
  {
    var after := w[|x|..];
    var head := w[..|x| + |sep|];
    assert w[..|x|] == head[..|x|] == (x + sep)[..|x|] == x;
    assert after[..|sep|] == head[|x|..] == sep;
    assert Find(after, sep) == Some(0);
    FindPast(x, after, sep);
    assert w == w[..|x|] + after;
    SplitFirst(w, sep, |x|);
  }

  /** The first piece of a split ends where the separator is first found. */
  lemma SplitFirst(w: string, sep: string, i: nat)
    requires sep != [] && Find(w, sep) == Some(i)
    ensures Split(w, sep)[0] == w[..i]
  {
  }

  /** The second piece of a split is what follows the first separator, up to the next. */
  lemma SplitSecond(prefix: string, sep: string, rest: string)
    requires sep != [] && Find(prefix + sep, sep) == Some(|prefix|)
    ensures |Split(prefix + sep + rest, sep)| >= 2
    ensures Split(prefix + sep + rest, sep)[1] == Split(rest, sep)[0]
  {
    var line := prefix + sep + rest;
    FindExtend(prefix + sep, rest, sep);
    assert line[|prefix| + |sep|..] == rest;
  }

  // ---------------------------------------------------------------------------
  // int()
  // ---------------------------------------------------------------------------

  predicate IsDigit(c: char)
  {
    '0' <= c <= '9'
  }

  /**
   * Digits as `int` accepts them: at least one digit, an underscore only between
   * two digits.
   */
  predicate ValidDigits(d: string)
  {
    && d != []
    && (forall i :: 0 <= i < |d| ==> IsDigit(d[i]) || d[i] == '_')
    && d[0] != '_' && d[|d| - 1] != '_'
    && (forall j, i :: 0 < j < |d| && 0 <= i < j && i == j - 1 ==> d[i] != '_' || d[j] != '_')
  }

  /** The value of decimal digits, underscores skipped. */
  function DigitsValue(d: string): nat
    requires forall i :: 0 <= i < |d| ==> IsDigit(d[i]) || d[i] == '_'
  {
    if d == [] then 0
    else
      var last := d[|d| - 1];
      var high := DigitsValue(d[..|d| - 1]);
      if last == '_' then high
      else
        assert IsDigit(last);
        10 * high + (last as int - '0' as int)
  }

  /** `s` without the whitespace it starts with. */
  function StripLeft(s: string): (r: string)
    ensures |r| <= |s| && (r != [] ==> !IsSpace(r[0]))
  {
    if s != [] && IsSpace(s[0]) then StripLeft(s[1..]) else s
  }

  /** `s` without the whitespace it ends with. */
  function StripRight(s: string): (r: string)
    ensures |r| <= |s| && (r != [] ==> !IsSpace(r[|r| - 1]))
  {
    if s != [] && IsSpace(s[|s| - 1]) then StripRight(s[..|s| - 1]) else s
  }

  /** `s.strip()`. */
  function Strip(s: string): string
  {
    StripRight(StripLeft(s))
  }

  /**
   * `int(s)`: surrounding whitespace, an optional sign, then digits; `None` where
   * Python raises `ValueError`.
   */
  function ParseInt(s: string): (r: Option<int>)
  {
    var t := Strip(s);
    if t != [] && (t[0] == '-' || t[0] == '+') then
      var d := t[1..];
      if !ValidDigits(d) then None
      else if t[0] == '-' then Some(0 - DigitsValue(d) as int)
      else Some(DigitsValue(d))
    else if !ValidDigits(t) then None
    else Some(DigitsValue(t))
  }

  /** The shortest decimal digits of `n`. */
  function NatDigits(n: nat): (r: string)
    ensures r != [] && forall i :: 0 <= i < |r| ==> IsDigit(r[i])
  {
    if n < 10 then [('0' as int + n) as char]
    else NatDigits(n / 10) + [('0' as int + n % 10) as char]
  }

  /** `str(n)`. */
  function Show(n: int): string
  {
    if n < 0 then "-" + NatDigits(-n) else NatDigits(n)
  }

  /** `str(n)` is a sign and digits. */
  lemma ShowChars(n: int)
    ensures Show(n) != []
    ensures forall i :: 0 <= i < |Show(n)| ==> IsDigit(Show(n)[i]) || Show(n)[i] == '-'
  {
  }

  lemma {:induction false} NatDigitsValue(n: nat)
    ensures DigitsValue(NatDigits(n)) == n
  {
    if n >= 10 {
      NatDigitsValue(n / 10);
      var d := NatDigits(n);
      assert d[..|d| - 1] == NatDigits(n / 10);
    }
  }

  lemma StripAlready(s: string)
    requires s != [] && !IsSpace(s[0]) && !IsSpace(s[|s| - 1])
    ensures Strip(s) == s
  {
  }

  /** The digits of a number are valid for `int`. */
  lemma NatDigitsValid(n: nat)
    ensures ValidDigits(NatDigits(n)) && DigitsValue(NatDigits(n)) == n
  {
    NatDigitsValue(n);
  }

  /** `int(str(n)) == n`. */
  lemma ParseShow(n: int)
    ensures ParseInt(Show(n)) == Some(n)
  {
    if n < 0 {
      ParseShowNegative(n);
    } else {
      ParseShowNatural(n);
    }
  }

  /** The non-negative half of ParseShow. */
  lemma ParseShowNatural(n: nat)
    ensures ParseInt(Show(n)) == Some(n)
  {
    var digits := NatDigits(n);
    NatDigitsValid(n);
    StripAlready(digits);
    assert Show(n) == digits;
  }

  /** The negative half of ParseShow. */
  lemma ParseShowNegative(n: int)
    requires n < 0
    ensures ParseInt(Show(n)) == Some(n)
  {
    var digits := NatDigits(-n);
    NatDigitsValid(-n);
    var s := "-" + digits;
    assert s[0] == '-' && s[|s| - 1] == digits[|digits| - 1];
    StripAlready(s);
    assert s[1..] == digits;
    assert Show(n) == s;
  }
}
