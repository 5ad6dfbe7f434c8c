/** `Str` (src/Str.php): pure string helpers, together with the PHP library
    functions they are built from (`strtolower`, `ucwords`, `lcfirst`,
    `strncasecmp`, `explode`, `array_pad`, `trim`). Strings are byte strings
    and case mapping is ASCII only. */
module Strings {
  import opened Wrappers

  // ---------------------------------------------------------------------
  // ASCII case mapping

  predicate IsUpper(c: char) {
    'A' <= c <= 'Z'
  }

  predicate IsLower(c: char) {
    'a' <= c <= 'z'
  }

  function Lower(c: char): (d: char)
    ensures !IsUpper(d)
    ensures !IsUpper(c) ==> d == c
    ensures IsUpper(c) ==> IsLower(d)
  {
    if IsUpper(c) then (c as int + 32) as char else c
  }

  function Upper(c: char): (d: char)
    ensures !IsLower(d)
    ensures !IsLower(c) ==> d == c
    ensures IsLower(c) ==> IsUpper(d)
  {
    if IsLower(c) then (c as int - 32) as char else c
  }

  /** `strtolower`. */
  function ToLower(s: string): (r: string)
    ensures |r| == |s| && forall i :: 0 <= i < |s| ==> r[i] == Lower(s[i])
  {
    seq(|s|, i requires 0 <= i < |s| => Lower(s[i]))
  }

  /** The characters `ucwords` treats as word delimiters by default:
      space, tab, carriage return, newline, form feed and vertical tab. */
  predicate IsWordDelimiter(c: char) {
    c == ' ' || c == '\t' || c == '\r' || c == '\n' || c == '\U{000C}' || c == '\U{000B}'
  }

  /** `ucwords`: upper-cases the first character and every character that
      follows a word delimiter. */
  function Ucwords(s: string): (r: string)
    ensures |r| == |s|
    ensures forall i :: 0 <= i < |s| ==> r[i] == UcwordsAt(s, i)
  {
    seq(|s|, i requires 0 <= i < |s| => UcwordsAt(s, i))
  }

  /** The character at `i` after `ucwords`: upper-cased at the start and
      after a word delimiter, kept otherwise. */
  function UcwordsAt(s: string, i: nat): (c: char)
    requires i < |s|
    ensures i == 0 || IsWordDelimiter(s[i - 1]) ==> c == Upper(s[i])
    ensures i > 0 && !IsWordDelimiter(s[i - 1]) ==> c == s[i]
  {
    if i == 0 || IsWordDelimiter(s[i - 1]) then Upper(s[i]) else s[i]
  }

  /** `lcfirst`. */
  function LcFirst(s: string): (r: string)
    ensures |r| == |s|
    ensures |s| > 0 ==> r[0] == Lower(s[0]) && r[1..] == s[1..]
  {
    if s == [] then s else [Lower(s[0])] + s[1..]
  }

  /** `str_replace([from1, from2], to, s)` for single characters. */
  function ReplaceChars(s: string, from1: char, from2: char, to: char): (r: string)
    ensures |r| == |s|
    ensures forall i :: 0 <= i < |s| ==> r[i] == ReplaceChar(s[i], from1, from2, to)
  {
    seq(|s|, i requires 0 <= i < |s| => ReplaceChar(s[i], from1, from2, to))
  }

  function ReplaceChar(c: char, from1: char, from2: char, to: char): (d: char)
    ensures c == from1 || c == from2 ==> d == to
    ensures c != from1 && c != from2 ==> d == c
  {
    if c == from1 || c == from2 then to else c
  }

  /** `str_replace(c, '', s)`: drops every occurrence of `c`, keeping the
      order of the rest. */
  function RemoveChar(s: string, c: char): (r: string)
    ensures c !in r
    ensures forall i :: 0 <= i < |r| ==> r[i] in s
    ensures |r| <= |s|
  {
    if s == [] then []
    else if s[0] == c then RemoveChar(s[1..], c)
    else [s[0]] + RemoveChar(s[1..], c)
  }

  // ---------------------------------------------------------------------
  // camel

  /** `Str::camel`: '-' and '_' become spaces, the words are lower-cased,
      capitalised and joined without spaces, and the first letter is
      lower-cased. */
  function Camel(subject: Option<string>): (r: string)
    ensures subject.None? ==> r == ""
    ensures ' ' !in r && '-' !in r && '_' !in r
    ensures |r| > 0 ==> !IsUpper(r[0])
  {
    match subject
    case None => ""
    case Some(s) =>
      var normalized := ReplaceChars(s, '-', '_', ' ');
      var lowered := ToLower(normalized);
      var words := Ucwords(lowered);
      assert forall i :: 0 <= i < |words| ==> words[i] != '-' && words[i] != '_';
      assert '-' !in words && '_' !in words;
      var joined := RemoveChar(words, ' ');
      assert forall i :: 0 <= i < |joined| ==> joined[i] != '-' && joined[i] != '_' && joined[i] != ' ';
      var r := LcFirst(joined);
      assert forall i :: 0 <= i < |r| ==> r[i] != '-' && r[i] != '_' && r[i] != ' ' by {
        forall i | 0 <= i < |r|
          ensures r[i] != '-' && r[i] != '_' && r[i] != ' '
        {
          if i > 0 {
            assert r[i] == r[1..][i - 1] == joined[1..][i - 1] == joined[i];
          }
        }
      }
      r
  }

  /** A lower-case word without delimiters is left as it is (the test
      case "noop"). */
  lemma CamelKeepsLowerWord(s: string)
    requires forall i :: 0 <= i < |s| ==> IsLower(s[i])
    ensures Camel(Some(s)) == s
  {
    CamelSteps(s);
    assert ReplaceChars(s, '-', '_', ' ') == s by {
      ReplaceKeepsLower(s);
    }
    assert ToLower(s) == s by {
      ToLowerKeeps(s);
    }
    if s != [] {
      var c := Capitalised(s);
      assert Ucwords(s) == c by {
        UcwordsOne(s);
      }
      assert RemoveChar(c, ' ') == c by {
        assert ' ' !in c;
        RemoveCharAbsent(c, ' ');
      }
      LcFirstCapitalised(s, []);
      assert s + [] == s;
    }
  }

  lemma ReplaceKeepsLower(s: string)
    requires AllLower(s)
    ensures ReplaceChars(s, '-', '_', ' ') == s
  {
  }

  lemma UcwordsOne(w: string)
    requires |w| > 0 && AllLower(w)
    ensures Ucwords(w) == Capitalised(w)
  {
    var r := Ucwords(w);
    forall i | 0 < i < |w|
      ensures r[i] == w[i]
    {
      assert !IsWordDelimiter(w[i - 1]);
    }
  }

  lemma RemoveCharAbsent(s: string, c: char)
    requires c !in s
    ensures RemoveChar(s, c) == s
  {
  }

  lemma {:induction false} RemoveCharConcat(a: string, b: string, c: char)
    ensures RemoveChar(a + b, c) == RemoveChar(a, c) + RemoveChar(b, c)
  {
    if a != [] {
      assert (a + b)[1..] == a[1..] + b;
      RemoveCharConcat(a[1..], b, c);
    } else {
      assert a + b == b;
    }
  }

  predicate AllLower(w: string) {
    forall i :: 0 <= i < |w| ==> IsLower(w[i])
  }

  function Capitalised(w: string): string
    requires |w| > 0
  {
    [Upper(w[0])] + w[1..]
  }

  lemma ReplaceSeparator(w1: string, sep: char, w2: string)
    requires AllLower(w1) && AllLower(w2)
    requires sep == '-' || sep == '_' || sep == ' '
    ensures ReplaceChars(w1 + [sep] + w2, '-', '_', ' ') == w1 + [' '] + w2
  {
    var s := w1 + [sep] + w2;
    var r := ReplaceChars(s, '-', '_', ' ');
    forall i | 0 <= i < |s|
      ensures r[i] == (w1 + [' '] + w2)[i]
    {
      if i < |w1| {
        assert s[i] == w1[i];
      } else if i > |w1| {
        assert s[i] == w2[i - |w1| - 1];
      }
    }
  }

  lemma ToLowerKeeps(t: string)
    requires forall i :: 0 <= i < |t| ==> !IsUpper(t[i])
    ensures ToLower(t) == t
  {
  }

  lemma UcwordsTwo(w1: string, w2: string)
    requires |w1| > 0 && |w2| > 0 && AllLower(w1) && AllLower(w2)
    ensures Ucwords(w1 + [' '] + w2) == Capitalised(w1) + [' '] + Capitalised(w2)
  {
    var s := w1 + [' '] + w2;
    var r := Ucwords(s);
    var e := Capitalised(w1) + [' '] + Capitalised(w2);
    forall i | 0 <= i < |s|
      ensures r[i] == e[i]
    {
      if 0 < i < |w1| {
        assert s[i - 1] == w1[i - 1];
        assert !IsWordDelimiter(s[i - 1]);
      } else if i == |w1| + 1 {
        assert s[i - 1] == ' ';
      } else if i > |w1| + 1 {
        assert s[i - 1] == w2[i - |w1| - 2];
        assert !IsWordDelimiter(s[i - 1]);
      }
    }
  }

  lemma RemoveSpaceTwo(c1: string, c2: string)
    requires ' ' !in c1 && ' ' !in c2
    ensures RemoveChar(c1 + [' '] + c2, ' ') == c1 + c2
  {
    RemoveCharConcat(c1 + [' '], c2, ' ');
    RemoveCharConcat(c1, [' '], ' ');
    RemoveCharAbsent(c1, ' ');
    RemoveCharAbsent(c2, ' ');
    assert RemoveChar([' '], ' ') == [];
    assert RemoveChar(c1 + [' '], ' ') == c1;
  }

  /** `camel` as the composition of the PHP functions it calls. */
  lemma CamelSteps(s: string)
    ensures Camel(Some(s)) == LcFirst(RemoveChar(Ucwords(ToLower(ReplaceChars(s, '-', '_', ' '))), ' '))
  {
  }

  lemma LowerUpper(c: char)
    requires IsLower(c)
    ensures Lower(Upper(c)) == c
  {
  }

  lemma LcFirstCapitalised(w1: string, rest: string)
    requires |w1| > 0 && AllLower(w1)
    ensures LcFirst(Capitalised(w1) + rest) == w1 + rest
  {
    var c := Upper(w1[0]);
    var t := w1[1..] + rest;
    assert Lower(c) == w1[0] by {
      LowerUpper(w1[0]);
    }
    assert Capitalised(w1) + rest == [c] + t;
    assert ([c] + t)[1..] == t;
    assert [w1[0]] + t == w1 + rest;
  }

  /** Two lower-case words joined by '-', '_' or ' ' become one word with
      the second capitalised (the test cases "snake_case", "kebab-case" and
      "space delimited"). */
  lemma CamelTwoWords(w1: string, sep: char, w2: string)
    requires |w1| > 0 && |w2| > 0 && AllLower(w1) && AllLower(w2)
    requires sep == '-' || sep == '_' || sep == ' '
    ensures Camel(Some(w1 + [sep] + w2)) == w1 + Capitalised(w2)
  {
    var s := w1 + [sep] + w2;
    var spaced := w1 + [' '] + w2;
    var c1, c2 := Capitalised(w1), Capitalised(w2);
    CamelSteps(s);
    assert ReplaceChars(s, '-', '_', ' ') == spaced by {
      ReplaceSeparator(w1, sep, w2);
    }
    assert ToLower(spaced) == spaced by {
      ToLowerKeeps(spaced);
    }
    assert Ucwords(spaced) == c1 + [' '] + c2 by {
      UcwordsTwo(w1, w2);
    }
    assert RemoveChar(c1 + [' '] + c2, ' ') == c1 + c2 by {
      assert ' ' !in c1 && ' ' !in c2;
      RemoveSpaceTwo(c1, c2);
    }
    LcFirstCapitalised(w1, c2);
  }


  // ---------------------------------------------------------------------
  // startsWith

  function MinNat(a: nat, b: nat): nat {
    if a <= b then a else b
  }

  /** `substr(s, 0, n)` for `n >= 0`. */
  function Head(s: string, n: nat): (r: string)
    ensures r == s[..MinNat(n, |s|)]
  {
    if n <= |s| then s[..n] else s
  }

  /** `strncasecmp(a, b, n)`: compares at most `n` characters after ASCII
      lower-casing; when they agree, the result is the difference of the
      compared lengths. */
  function Strncasecmp(a: string, b: string, n: nat): int
    decreases n
  {
    if n == 0 || a == [] || b == [] then MinNat(n, |a|) - MinNat(n, |b|)
    else if Lower(a[0]) != Lower(b[0]) then Lower(a[0]) as int - Lower(b[0]) as int
    else Strncasecmp(a[1..], b[1..], n - 1)
  }

  /** `Str::startsWith`: a missing subject counts as the empty string. */
  function StartsWith(subject: Option<string>, start: string, caseSensitive: bool): bool {
    var s := subject.GetOr("");
    if !caseSensitive then Strncasecmp(s, start, |start|) == 0
    else Head(s, |start|) == start
  }

  /** Case-sensitive: exactly when `start` is a prefix of the subject. */
  lemma StartsWithIsPrefix(subject: Option<string>, start: string)
    ensures StartsWith(subject, start, true) <==> start <= subject.GetOr("")
  {
  }

  lemma {:induction false} StrncasecmpZero(a: string, b: string, n: nat)
    requires n <= |b|
    ensures Strncasecmp(a, b, n) == 0 <==> n <= |a| && ToLower(a[..n]) == ToLower(b[..n])
    decreases n
  {
    if n == 0 || a == [] || b == [] {
    } else if Lower(a[0]) != Lower(b[0]) {
      if n <= |a| {
        assert ToLower(a[..n])[0] != ToLower(b[..n])[0];
      }
    } else {
      StrncasecmpZero(a[1..], b[1..], n - 1);
      if n <= |a| {
        assert a[1..][..n - 1] == a[..n][1..];
        assert b[1..][..n - 1] == b[..n][1..];
        assert ToLower(a[..n]) == [Lower(a[0])] + ToLower(a[1..][..n - 1]);
        assert ToLower(b[..n]) == [Lower(b[0])] + ToLower(b[1..][..n - 1]);
      }
    }
  }

  /** Case-insensitive: exactly when the subject is at least as long as
      `start` and agrees with it on that many characters, ignoring ASCII
      case. */
  lemma StartsWithIgnoringCase(subject: Option<string>, start: string)
    ensures var s := subject.GetOr("");
      StartsWith(subject, start, false) <==> |start| <= |s| && ToLower(s[..|start|]) == ToLower(start)
  {
    StrncasecmpZero(subject.GetOr(""), start, |start|);
    assert start[..|start|] == start;
  }

  /** A case-sensitive match is also a case-insensitive one. */
  lemma CaseSensitiveImpliesInsensitive(subject: Option<string>, start: string)
    requires StartsWith(subject, start, true)
    ensures StartsWith(subject, start, false)
  {
    StartsWithIgnoringCase(subject, start);
    var s := subject.GetOr("");
    assert s[..|start|] == start;
  }

  lemma StartsWithExamples()
    ensures StartsWith(Some("foobar"), "foo", true)
    ensures !StartsWith(Some("foobar"), "bar", true)
    ensures StartsWith(Some("FOOBAR"), "FOO", true)
    ensures !StartsWith(Some("FOOBAR"), "foo", true)
    ensures StartsWith(Some("FOOBAR"), "foo", false)
    ensures StartsWith(None, "", true)
  {
    assert "FOOBAR"[..3] == "FOO";
    assert "foobar"[..3] == "foo";
    StartsWithIgnoringCase(Some("FOOBAR"), "foo");
    assert ToLower("FOO") == "foo";
    assert ToLower("foo") == "foo";
  }

  // ---------------------------------------------------------------------
  // explode

  predicate OccursAt(s: string, d: string, j: nat) {
    j + |d| <= |s| && s[j..j + |d|] == d
  }

  /** The first occurrence of `d` in `s` at or after `from`. */
  function Find(s: string, d: string, from: nat): (r: Option<nat>)
    requires from <= |s|
    ensures r.Some? ==> from <= r.value && OccursAt(s, d, r.value)
    ensures r.Some? ==> forall j :: from <= j < r.value ==> !OccursAt(s, d, j)
    ensures r.None? ==> forall j :: from <= j <= |s| ==> !OccursAt(s, d, j)
    decreases |s| - from
  {
    if OccursAt(s, d, from) then Some(from)
    else if from == |s| then None
    else Find(s, d, from + 1)
  }

  /** Splitting at every occurrence of a non-empty delimiter, left to
      right: the pieces contain no delimiter and there is always one. */
  function Split(s: string, d: string): (pieces: seq<string>)
    requires |d| > 0
    ensures |pieces| >= 1
    decreases |s|
  {
    match Find(s, d, 0)
    case None => [s]
    case Some(i) => [s[..i]] + Split(s[i + |d|..], d)
  }

  /** `implode(d, pieces)`. */
  function Join(pieces: seq<string>, d: string): string {
    if |pieces| == 0 then ""
    else if |pieces| == 1 then pieces[0]
    else pieces[0] + d + Join(pieces[1..], d)
  }

  /** Joining the pieces with the delimiter gives back the string. */
  lemma {:induction false} JoinSplit(s: string, d: string)
    requires |d| > 0
    ensures Join(Split(s, d), d) == s
    decreases |s|
  {
    var f := Find(s, d, 0);
    if f.Some? {
      var i := f.value;
      var rest := s[i + |d|..];
      var tail := Split(rest, d);
      assert Split(s, d) == [s[..i]] + tail;
      JoinSplit(rest, d);
      assert ([s[..i]] + tail)[1..] == tail;
      assert Join([s[..i]] + tail, d) == s[..i] + d + Join(tail, d);
      assert s[i..i + |d|] == d;
      assert s == s[..i] + s[i..i + |d|] + rest;
    }
  }

  /** Nothing that does not occur in `s` before `i` occurs in its
      prefix `s[..i]`. */
  lemma PrefixFree(s: string, d: string, i: nat)
    requires |d| > 0 && i <= |s|
    requires forall j :: 0 <= j < i ==> !OccursAt(s, d, j)
    ensures forall j: nat :: j <= i ==> !OccursAt(s[..i], d, j)
  {
    forall j: nat | j <= i
      ensures !OccursAt(s[..i], d, j)
    {
      if j + |d| <= i {
        assert !OccursAt(s, d, j);
        assert s[..i][j..j + |d|] == s[j..j + |d|];
      }
    }
  }

  /** No piece contains the delimiter. */
  lemma {:induction false} SplitPiecesFree(s: string, d: string)
    requires |d| > 0
    ensures forall p, j: nat :: p in Split(s, d) && j <= |p| ==> !OccursAt(p, d, j)
    decreases |s|
  {
    var f := Find(s, d, 0);
    if f.Some? {
      var i := f.value;
      var rest := s[i + |d|..];
      SplitPiecesFree(rest, d);
      var head := s[..i];
      assert Split(s, d) == [head] + Split(rest, d);
      PrefixFree(s, d, i);
    } else {
      assert Split(s, d) == [s];
    }
  }

  /** `explode(d, s, k)` for `k >= 1`: at most `k` pieces, the last one
      holding the unsplit remainder. */
  function ExplodeLimit(s: string, d: string, k: nat): (pieces: seq<string>)
    requires |d| > 0 && k >= 1
    ensures 1 <= |pieces| <= k
    decreases |s|
  {
    var f := Find(s, d, 0);
    if k == 1 || f.None? then [s]
    else [s[..f.value]] + ExplodeLimit(s[f.value + |d|..], d, k - 1)
  }

  /** `explode(d, s, limit)`: a positive limit caps the number of pieces,
      a negative one drops that many pieces from the end, and 0 counts as
      1. */
  function Explode(d: string, s: string, limit: int): (pieces: seq<string>)
    requires |d| > 0
  {
    if limit > 0 then ExplodeLimit(s, d, limit)
    else if limit < 0 then
      var all := Split(s, d);
      if |all| <= -limit then [] else all[..|all| + limit]
    else ExplodeLimit(s, d, 1)
  }

  /** The first `k - 1` pieces, then the remaining ones joined back
      together with the delimiter. */
  function Capped(all: seq<string>, d: string, k: nat): seq<string>
    requires k >= 1
  {
    if |all| <= k then all else all[..k - 1] + [Join(all[k - 1..], d)]
  }

  /** A limit of `k` splits like the unlimited split but keeps the pieces
      from the `k`-th on joined together. */
  lemma {:induction false} ExplodeLimitSplit(s: string, d: string, k: nat)
    requires |d| > 0 && k >= 1
    ensures ExplodeLimit(s, d, k) == Capped(Split(s, d), d, k)
    decreases |s|
  {
    var all := Split(s, d);
    var f := Find(s, d, 0);
    if k == 1 {
      ExplodeLimitOne(s, d);
    } else if f.Some? {
      var i := f.value;
      var rest := s[i + |d|..];
      var tail := Split(rest, d);
      assert all == [s[..i]] + tail by {
        SplitFound(s, d, i);
      }
      assert ExplodeLimit(s, d, k) == [s[..i]] + ExplodeLimit(rest, d, k - 1) by {
        ExplodeLimitFound(s, d, k, i);
      }
      ExplodeLimitSplit(rest, d, k - 1);
      ExplodeLimitCons(s[..i], tail, ExplodeLimit(rest, d, k - 1), d, k);
    } else {
      ExplodeLimitNotFound(s, d, k);
    }
  }

  /** Without an occurrence of the delimiter both splits give `s` alone. */
  lemma ExplodeLimitNotFound(s: string, d: string, k: nat)
    requires |d| > 0 && k >= 1 && Find(s, d, 0).None?
    ensures Split(s, d) == [s] && ExplodeLimit(s, d, k) == [s]
  {
  }

  /** The unlimited split cuts at the first occurrence of the delimiter. */
  lemma SplitFound(s: string, d: string, i: nat)
    requires |d| > 0 && Find(s, d, 0) == Some(i)
    ensures Split(s, d) == [s[..i]] + Split(s[i + |d|..], d)
  {
  }

  /** So does the limited one while the limit allows more than one piece. */
  lemma ExplodeLimitFound(s: string, d: string, k: nat, i: nat)
    requires |d| > 0 && k >= 2 && Find(s, d, 0) == Some(i)
    ensures ExplodeLimit(s, d, k) == [s[..i]] + ExplodeLimit(s[i + |d|..], d, k - 1)
  {
  }
  /** A limit of 1 keeps the whole string as the only piece. */
  lemma ExplodeLimitOne(s: string, d: string)
    requires |d| > 0
    ensures ExplodeLimit(s, d, 1) == Capped(Split(s, d), d, 1)
  {
    var all := Split(s, d);
    JoinSplit(s, d);
    assert all[0..] == all;
    if Find(s, d, 0).None? {
      assert all == [s];
    }
  }

  /** The step of `ExplodeLimitSplit`: one more piece in front. */
  lemma ExplodeLimitCons(h: string, tail: seq<string>, e: seq<string>, d: string, k: nat)
    requires k >= 2
    requires e == Capped(tail, d, k - 1)
    ensures [h] + e == Capped([h] + tail, d, k)
  {
    if |tail| > k - 1 {
      ConsSlices(h, tail, k - 2);
    }
  }

  lemma ConsSlices<T>(h: T, t: seq<T>, n: nat)
    requires n < |t|
    ensures ([h] + t)[..n + 1] == [h] + t[..n]
    ensures ([h] + t)[n + 1..] == t[n..]
  {
  }

  /** `empty($s)` for a string: the empty string and "0". */
  predicate EmptyString(s: string) {
    s == "" || s == "0"
  }

  /** `array_pad(a, size, v)`: pads to `|size|` elements, at the end for a
      positive size and at the front for a negative one. */
  function ArrayPad<T>(a: seq<T>, size: int, v: T): (r: seq<T>)
    ensures |r| == if |a| >= size && |a| >= -size then |a| else if size > 0 then size else -size
    ensures size > 0 ==> r[..|a|] == a && forall i :: |a| <= i < |r| ==> r[i] == v
    ensures size <= 0 ==> r[|r| - |a|..] == a && forall i :: 0 <= i < |r| - |a| ==> r[i] == v
  {
    var n := if size >= 0 then size else -size;
    if n <= |a| then a
    else if size > 0 then a + seq(n - |a|, _ => v)
    else seq(n - |a|, _ => v) + a
  }

  function Wrap(pieces: seq<string>): (r: seq<Option<string>>)
    ensures |r| == |pieces| && forall i :: 0 <= i < |r| ==> r[i] == Some(pieces[i])
  {
    seq(|pieces|, i requires 0 <= i < |pieces| => Some(pieces[i]))
  }

  /** `Str::symmetricSplit`: the pieces of `explode`, padded with the
      default up to `limit` elements; a missing subject or an empty
      delimiter gives only the padding. */
  function SymmetricSplit(subject: Option<string>, delimiter: string, limit: int, default: Option<string>): seq<Option<string>> {
    if subject.None? || EmptyString(delimiter) then ArrayPad([], limit, default)
    else ArrayPad(Wrap(Explode(delimiter, subject.value, limit)), limit, default)
  }

  /** A positive limit gives exactly `limit` elements: the pieces, then
      the default. */
  lemma SymmetricSplitLength(subject: Option<string>, delimiter: string, limit: int, default: Option<string>)
    requires limit >= 1
    ensures var r := SymmetricSplit(subject, delimiter, limit, default);
      && |r| == limit
      && (subject.None? || EmptyString(delimiter) ==> forall i :: 0 <= i < limit ==> r[i] == default)
      && (subject.Some? && !EmptyString(delimiter) ==>
            var pieces := ExplodeLimit(subject.value, delimiter, limit);
            (forall i :: 0 <= i < |pieces| ==> r[i] == Some(pieces[i]))
            && (forall i :: |pieces| <= i < limit ==> r[i] == default))
  {
  }

  lemma OccursAtChar(s: string, c: char, j: nat)
    ensures OccursAt(s, [c], j) <==> j < |s| && s[j] == c
  {
    if j < |s| {
      assert s[j..j + 1] == [s[j]];
    }
  }

  /** Fewer pieces than the limit are padded with the default. */
  lemma SymmetricSplitPads()
    ensures SymmetricSplit(Some("a:b"), ":", 3, None) == [Some("a"), Some("b"), None]
  {
    OccursAtChar("a:b", ':', 0);
    OccursAtChar("a:b", ':', 1);
    assert Find("a:b", ":", 0) == Some(1);
    OccursAtChar("b", ':', 0);
    OccursAtChar("b", ':', 1);
    assert Find("b", ":", 0) == None;
    assert "a:b"[..1] == "a" && "a:b"[2..] == "b";
    assert ExplodeLimit("a:b", ":", 3) == ["a"] + ExplodeLimit("b", ":", 2);
    assert ExplodeLimit("b", ":", 2) == ["b"];
    assert Wrap(["a", "b"]) == [Some("a"), Some("b")];
  }

  /** At the limit, the last piece keeps the rest of the subject. */
  lemma SymmetricSplitKeepsRest()
    ensures SymmetricSplit(Some("a:b:c"), ":", 2, None) == [Some("a"), Some("b:c")]
  {
    OccursAtChar("a:b:c", ':', 0);
    OccursAtChar("a:b:c", ':', 1);
    assert Find("a:b:c", ":", 0) == Some(1);
    assert "a:b:c"[2..] == "b:c" && "a:b:c"[..1] == "a";
    assert ExplodeLimit("a:b:c", ":", 2) == ["a"] + ExplodeLimit("b:c", ":", 1);
    assert Wrap(["a", "b:c"]) == [Some("a"), Some("b:c")];
  }

  /** A delimiter PHP counts as empty gives only the padding. */
  lemma SymmetricSplitEmptyDelimiter()
    ensures SymmetricSplit(Some("a0b"), "0", 2, Some("x")) == [Some("x"), Some("x")]
  {
  }

  // ---------------------------------------------------------------------
  // trimSplit

  /** The characters `trim` strips by default. */
  predicate IsTrimChar(c: char) {
    c == ' ' || c == '\t' || c == '\n' || c == '\r' || c == '\0' || c == '\U{000B}'
  }

  /** `l` is what is left of `s` once its leading trim characters are
      gone: a suffix of `s`, everything before it a trim character, and
      itself not starting with one. */
  predicate LeftTrimmed(s: string, l: string) {
    && |l| <= |s| && l == s[|s| - |l|..]
    && (forall j :: 0 <= j < |s| - |l| ==> IsTrimChar(s[j]))
    && (|l| > 0 ==> !IsTrimChar(l[0]))
  }

  /** The mirror image of `LeftTrimmed` at the end of `s`. */
  predicate RightTrimmed(s: string, r: string) {
    && |r| <= |s| && r == s[..|r|]
    && (forall j :: |r| <= j < |s| ==> IsTrimChar(s[j]))
    && (|r| > 0 ==> !IsTrimChar(r[|r| - 1]))
  }

  function TrimLeft(s: string): (r: string)
    ensures LeftTrimmed(s, r)
  {
    if |s| > 0 && IsTrimChar(s[0]) then
      var l := TrimLeft(s[1..]);
      LeftTrimmedCons(s, l);
      l
    else s
  }

  lemma LeftTrimmedCons(s: string, l: string)
    requires |s| > 0 && IsTrimChar(s[0]) && LeftTrimmed(s[1..], l)
    ensures LeftTrimmed(s, l)
  {
    assert forall j :: 1 <= j < |s| - |l| ==> s[j] == s[1..][j - 1];
  }

  function TrimRight(s: string): (r: string)
    ensures RightTrimmed(s, r)
  {
    if |s| > 0 && IsTrimChar(s[|s| - 1]) then
      var r := TrimRight(s[..|s| - 1]);
      RightTrimmedSnoc(s, r);
      r
    else s
  }

  lemma RightTrimmedSnoc(s: string, r: string)
    requires |s| > 0 && IsTrimChar(s[|s| - 1]) && RightTrimmed(s[..|s| - 1], r)
    ensures RightTrimmed(s, r)
  {
    assert forall j :: |r| <= j < |s| - 1 ==> s[j] == s[..|s| - 1][j];
  }

  /** `trim`: the slice left after stripping trim characters from both
      ends. */
  function Trim(s: string): (r: string)
    ensures exists i :: TrimmedSlice(s, i, r)
  {
    var l := TrimLeft(s);
    var r := TrimRight(l);
    TrimSlice(s, l, r);
    r
  }

  /** `r` is the slice of `s` starting at `i`, everything of `s` around
      it is a trim character, and `r` neither starts nor ends with one. */
  predicate TrimmedSlice(s: string, i: int, r: string) {
    && 0 <= i && i + |r| <= |s| && r == s[i..i + |r|]
    && (forall j :: 0 <= j < i ==> IsTrimChar(s[j]))
    && (forall j :: i + |r| <= j < |s| ==> IsTrimChar(s[j]))
    && (|r| > 0 ==> !IsTrimChar(r[0]) && !IsTrimChar(r[|r| - 1]))
  }

  lemma SliceOfSuffix<T>(s: seq<T>, i: nat, n: nat)
    requires i + n <= |s|
    ensures s[i..][..n] == s[i..i + n]
  {
  }

  /** Cutting a suffix `l` of `s` down to a prefix `r` of `l` leaves a
      slice of `s`, followed in `s` by what was cut off `l`. */
  lemma TrimSlice(s: string, l: string, r: string)
    requires LeftTrimmed(s, l) && RightTrimmed(l, r)
    ensures TrimmedSlice(s, |s| - |l|, r)
  {
    var i := |s| - |l|;
    if |r| > 0 {
      assert r[0] == l[0];
    }
    SliceOfSuffix(s, i, |r|);
    forall j | i + |r| <= j < |s|
      ensures IsTrimChar(s[j])
    {
      assert s[j] == l[j - i];
    }
  }

  function TrimAll(pieces: seq<string>): (r: seq<string>)
    ensures |r| == |pieces| && forall i :: 0 <= i < |r| ==> r[i] == Trim(pieces[i])
  {
    seq(|pieces|, i requires 0 <= i < |pieces| => Trim(pieces[i]))
  }

  /** `Str::trimSplit`: the pieces of `explode` (with the limit, if one is
      given), each trimmed; a missing subject or an empty delimiter gives
      no pieces. */
  function TrimSplit(subject: Option<string>, delimiter: string, limit: Option<int>): (r: seq<string>)
    ensures subject.None? || EmptyString(delimiter) ==> r == []
    ensures subject.Some? && !EmptyString(delimiter) ==>
      var pieces := if limit.Some? then Explode(delimiter, subject.value, limit.value) else Split(subject.value, delimiter);
      |r| == |pieces| && forall i :: 0 <= i < |r| ==> r[i] == Trim(pieces[i])
  {
    if subject.None? || EmptyString(delimiter) then []
    else if limit.Some? then TrimAll(Explode(delimiter, subject.value, limit.value))
    else TrimAll(Split(subject.value, delimiter))
  }

  lemma SplitExample()
    ensures Split(" a , b ", ",") == [" a ", " b "]
  {
    OccursAtChar(" a , b ", ',', 0);
    OccursAtChar(" a , b ", ',', 1);
    OccursAtChar(" a , b ", ',', 2);
    OccursAtChar(" a , b ", ',', 3);
    assert Find(" a , b ", ",", 0) == Some(3);
    OccursAtChar(" b ", ',', 0);
    OccursAtChar(" b ", ',', 1);
    OccursAtChar(" b ", ',', 2);
    OccursAtChar(" b ", ',', 3);
    assert Find(" b ", ",", 0) == None;
    assert " a , b "[..3] == " a " && " a , b "[4..] == " b ";
    assert Split(" a , b ", ",") == [" a "] + Split(" b ", ",");
  }

  /** `trim` removes exactly the surrounding trim characters: a string
      that does not start or end with one is what is left of it. */
  lemma TrimOfPadded(p: string, m: string, q: string)
    requires forall j :: 0 <= j < |p| ==> IsTrimChar(p[j])
    requires forall j :: 0 <= j < |q| ==> IsTrimChar(q[j])
    requires |m| > 0 && !IsTrimChar(m[0]) && !IsTrimChar(m[|m| - 1])
    ensures Trim(p + m + q) == m
  {
    var s := p + m + q;
    var r := Trim(s);
    var i :| TrimmedSlice(s, i, r);
    assert |r| > 0 ==> s[i] == r[0] && s[i + |r| - 1] == r[|r| - 1];
    PaddedCut(p, m, q, i, |r|);
    assert s[|p|..|p| + |m|] == m;
  }

  /** The only cut of `p + m + q` that keeps no trim character at either
      end of the middle and nothing but trim characters outside it is the
      one around `m`. */
  lemma PaddedCut(p: string, m: string, q: string, i: nat, n: nat)
    requires forall j :: 0 <= j < |p| ==> IsTrimChar(p[j])
    requires forall j :: 0 <= j < |q| ==> IsTrimChar(q[j])
    requires |m| > 0 && !IsTrimChar(m[0]) && !IsTrimChar(m[|m| - 1])
    requires i + n <= |p + m + q|
    requires forall j :: 0 <= j < i ==> IsTrimChar((p + m + q)[j])
    requires forall j :: i + n <= j < |p + m + q| ==> IsTrimChar((p + m + q)[j])
    requires n > 0 ==> !IsTrimChar((p + m + q)[i]) && !IsTrimChar((p + m + q)[i + n - 1])
    ensures i == |p| && n == |m|
  {
    var s := p + m + q;
    assert s[|p|] == m[0];
    assert s[|p| + |m| - 1] == m[|m| - 1];
    assert i <= |p|;
    assert forall j :: 0 <= j < |p| ==> s[j] == p[j];
    assert forall j :: |p| + |m| <= j < |s| ==> s[j] == q[j - |p| - |m|];
  }
}
