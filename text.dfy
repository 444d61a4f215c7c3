/** The pieces of Python 2 string and list behaviour that the SIESTA adapter
    relies on: `str.split(sep)`, `sep.join`, `str.split()` on whitespace,
    `int()` of a token, `'%d' %`, `str.lower()`, `os.path.basename`,
    `os.path.isabs`, `os.path.join`, slicing with clamped indices and
    `list.insert`. */
module Text {
  import opened Wrappers

  // ---------------------------------------------------------------------
  // Splitting on one separator character and joining back
  // ---------------------------------------------------------------------

  /** `s.split(sep)`: the maximal runs between separators, empty runs kept. */
  function Split(s: string, sep: char): (parts: seq<string>)
    ensures |parts| >= 1
    ensures forall i :: 0 <= i < |parts| ==> sep !in parts[i]
  {
    if |s| == 0 then [[]]
    else
      var rest := Split(s[1..], sep);
      if s[0] == sep then [[]] + rest
      else [[s[0]] + rest[0]] + rest[1..]
  }

  /** `sep.join(parts)`. */
  function Join(parts: seq<string>, sep: char): string
  {
    if |parts| == 0 then []
    else if |parts| == 1 then parts[0]
    else parts[0] + [sep] + Join(parts[1..], sep)
  }

  /** Joining what was split gives the original string back. */
  lemma {:induction false} JoinSplit(s: string, sep: char)
    ensures Join(Split(s, sep), sep) == s
  {
    if |s| > 0 {
      JoinSplit(s[1..], sep);
      var rest := Split(s[1..], sep);
      if s[0] == sep {
        assert Join([[]] + rest, sep) == [sep] + Join(rest, sep);
      } else if |rest| > 1 {
        assert ([[s[0]] + rest[0]] + rest[1..])[1..] == rest[1..];
        assert rest == [rest[0]] + rest[1..];
        assert Join(rest, sep) == rest[0] + [sep] + Join(rest[1..], sep);
      }
    }
  }

  /** Splitting a string whose head run has no separator. */
  lemma {:induction false} SplitPrefix(p: string, t: string, sep: char)
    requires sep !in p
    ensures Split(p + t, sep) == [p + Split(t, sep)[0]] + Split(t, sep)[1..]
  {
    if |p| > 0 {
      SplitPrefix(p[1..], t, sep);
      var st := Split(t, sep);
      assert (p + t)[1..] == p[1..] + t;
      assert (p + t)[0] == p[0] && p[0] != sep;
      var rest := Split(p[1..] + t, sep);
      assert rest[0] == p[1..] + st[0] && rest[1..] == st[1..];
      assert [p[0]] + (p[1..] + st[0]) == p + st[0];
    } else {
      assert p + t == t;
      var st := Split(t, sep);
      assert p + st[0] == st[0];
      assert st == [st[0]] + st[1..];
    }
  }

  /** Splitting what was joined gives the parts back, when no part holds the separator. */
  lemma {:induction false} SplitJoin(parts: seq<string>, sep: char)
    requires |parts| >= 1
    requires forall i :: 0 <= i < |parts| ==> sep !in parts[i]
    ensures Split(Join(parts, sep), sep) == parts
  {
    if |parts| == 1 {
      SplitPrefix(parts[0], [], sep);
      assert parts[0] + [] == parts[0];
    } else {
      var tail := Join(parts[1..], sep);
      SplitJoin(parts[1..], sep);
      SplitPrefix(parts[0], [sep] + tail, sep);
      assert ([sep] + tail)[1..] == tail;
      assert parts[0] + [sep] + tail == parts[0] + ([sep] + tail);
      assert Split([sep] + tail, sep) == [[]] + parts[1..];
      assert parts[0] + [] == parts[0];
      assert parts == [parts[0]] + parts[1..];
    }
  }

  /** Splitting `stem + sep + last` where `last` holds no separator: the
      parts of `stem`, then `last`. */
  lemma {:induction false} SplitLast(stem: string, last: string, sep: char)
    requires sep !in last
    ensures Split(stem + [sep] + last, sep) == Split(stem, sep) + [last]
  {
    if |stem| == 0 {
      assert stem + [sep] + last == [sep] + last;
      assert ([sep] + last)[1..] == last;
      SplitPrefix(last, [], sep);
      assert last + [] == last;
    } else {
      SplitLast(stem[1..], last, sep);
      assert (stem + [sep] + last)[1..] == stem[1..] + [sep] + last;
      var rest := Split(stem[1..], sep);
      if stem[0] != sep {
        assert ([[stem[0]] + rest[0]] + rest[1..]) + [last]
            == [[stem[0]] + (rest + [last])[0]] + (rest + [last])[1..];
      }
    }
  }

  /** Joining parts with one more part at the end. */
  lemma {:induction false} JoinSnoc(parts: seq<string>, last: string, sep: char)
    requires |parts| >= 1
    ensures Join(parts + [last], sep) == Join(parts, sep) + [sep] + last
  {
    if |parts| == 1 {
      assert (parts + [last])[1..] == [last];
    } else {
      assert (parts + [last])[1..] == parts[1..] + [last];
      JoinSnoc(parts[1..], last, sep);
    }
  }

  /** Lines each ended by a newline: what consecutive `f.write` calls of
      whole lines produce. */
  function Unlines(lines: seq<string>): string
  {
    if |lines| == 0 then "" else Unlines(lines[..|lines| - 1]) + lines[|lines| - 1] + "\n"
  }

  /** Writing one more line. */
  lemma UnlinesSnoc(lines: seq<string>, line: string, written: string)
    requires written == line + "\n"
    ensures Unlines(lines + [line]) == Unlines(lines) + written
  {
    assert (lines + [line])[..|lines|] == lines;
  }

  lemma {:induction false} UnlinesIsJoin(lines: seq<string>)
    ensures Unlines(lines) == Join(lines + [""], '\n')
  {
    if |lines| > 0 {
      var init, l := lines[..|lines| - 1], lines[|lines| - 1];
      UnlinesIsJoin(init);
      assert lines == init + [l];
      JoinSnoc(lines, "", '\n');
      if |init| == 0 {
        assert Join(lines, '\n') == l;
        assert Unlines(init) == "";
      } else {
        JoinSnoc(init, l, '\n');
        JoinSnoc(init, "", '\n');
      }
    }
  }

  /** Splitting written lines on newlines gives the lines back, and the
      empty run after the last newline. */
  lemma SplitUnlines(lines: seq<string>)
    requires forall i :: 0 <= i < |lines| ==> '\n' !in lines[i]
    ensures Split(Unlines(lines), '\n') == lines + [""]
  {
    UnlinesIsJoin(lines);
    var all := lines + [""];
    forall i | 0 <= i < |all| ensures '\n' !in all[i] {
      if i < |lines| {
        assert all[i] == lines[i];
      }
    }
    SplitJoin(all, '\n');
  }

  /** No line holds a newline. */
  predicate NoNewlines(lines: seq<string>)
  {
    forall i :: 0 <= i < |lines| ==> '\n' !in lines[i]
  }

  /** Splitting the lines of two groups written one after the other. */
  lemma SplitUnlinesConcat(head: seq<string>, body: seq<string>)
    requires NoNewlines(head) && NoNewlines(body)
    ensures Split(Unlines(head + body), '\n') == head + body + [""]
  {
    var all := head + body;
    forall i | 0 <= i < |all| ensures '\n' !in all[i] {
      if i < |head| {
        assert all[i] == head[i];
      } else {
        assert all[i] == body[i - |head|];
      }
    }
    SplitUnlines(all);
  }

  // ---------------------------------------------------------------------
  // Splitting on whitespace (`str.split()` with no argument)
  // ---------------------------------------------------------------------

  /** The characters Python 2's `str.isspace` accepts. */
  predicate IsSpace(c: char)
  {
    c == ' ' || c == '\t' || c == '\n' || c == '\r' || c == '\U{000B}' || c == '\U{000C}'
  }

  /** A token that `str.split()` can return: non-empty, no whitespace. */
  predicate IsWord(w: string)
  {
    |w| > 0 && forall i :: 0 <= i < |w| ==> !IsSpace(w[i])
  }

  /** The length of the leading run of non-whitespace characters. */
  function WordLength(s: string): (n: nat)
    ensures n <= |s|
    ensures forall i :: 0 <= i < n ==> !IsSpace(s[i])
    ensures n == |s| || IsSpace(s[n])
  {
    if |s| == 0 || IsSpace(s[0]) then 0 else 1 + WordLength(s[1..])
  }

  /** `s.split()`: the maximal runs of non-whitespace characters, in order. */
  function Words(s: string): (ws: seq<string>)
    ensures forall i :: 0 <= i < |ws| ==> IsWord(ws[i])
    decreases |s|
  {
    if |s| == 0 then []
    else if IsSpace(s[0]) then Words(s[1..])
    else
      var n := WordLength(s);
      [s[..n]] + Words(s[n..])
  }

  /** A word followed by whitespace (or nothing) is the first token. */
  lemma {:induction false} WordsCons(w: string, rest: string)
    requires IsWord(w)
    requires |rest| == 0 || IsSpace(rest[0])
    ensures Words(w + rest) == [w] + Words(rest)
  {
    WordLengthOf(w, rest);
    assert (w + rest)[..|w|] == w;
    assert (w + rest)[|w|..] == rest;
  }

  lemma {:induction false} WordLengthOf(w: string, rest: string)
    requires forall i :: 0 <= i < |w| ==> !IsSpace(w[i])
    requires |rest| == 0 || IsSpace(rest[0])
    ensures WordLength(w + rest) == |w|
  {
    if |w| > 0 {
      assert (w + rest)[1..] == w[1..] + rest;
      WordLengthOf(w[1..], rest);
    } else {
      assert w + rest == rest;
    }
  }

  /** Leading whitespace does not change the tokens. */
  lemma {:induction false} WordsSkipSpace(sp: string, x: string)
    requires forall i :: 0 <= i < |sp| ==> IsSpace(sp[i])
    ensures Words(sp + x) == Words(x)
  {
    if |sp| > 0 {
      assert (sp + x)[1..] == sp[1..] + x;
      WordsSkipSpace(sp[1..], x);
    } else {
      assert sp + x == x;
    }
  }

  /** A word and a space in front of the rest: the word is the first token. */
  lemma WordsSpaced(w: string, rest: string)
    requires IsWord(w)
    ensures Words(w + " " + rest) == [w] + Words(rest)
  {
    assert w + " " + rest == w + (" " + rest);
    WordsCons(w, " " + rest);
    WordsSkipSpace(" ", rest);
  }

  /** A single word is its only token. */
  lemma WordsSingle(w: string)
    requires IsWord(w)
    ensures Words(w) == [w]
  {
    WordsCons(w, "");
    assert w + "" == w;
  }

  /** Whitespace-split of tokens joined by single spaces gives the tokens back. */
  lemma {:induction false} WordsOfJoin(ws: seq<string>)
    requires forall i :: 0 <= i < |ws| ==> IsWord(ws[i])
    ensures Words(Join(ws, ' ')) == ws
  {
    if |ws| == 1 {
      WordsCons(ws[0], []);
      assert ws[0] + [] == ws[0];
    } else if |ws| > 1 {
      var tail := Join(ws[1..], ' ');
      WordsOfJoin(ws[1..]);
      WordsCons(ws[0], [' '] + tail);
      assert ws[0] + [' '] + tail == ws[0] + ([' '] + tail);
      WordsSkipSpace([' '], tail);
    }
  }

  // ---------------------------------------------------------------------
  // Decimal integers: `'%d' % n` and `int(token)`
  // ---------------------------------------------------------------------

  predicate IsDigit(c: char)
  {
    '0' <= c <= '9'
  }

  predicate AllDigits(s: string)
  {
    forall i :: 0 <= i < |s| ==> IsDigit(s[i])
  }

  function DigitChar(d: nat): (c: char)
    requires d < 10
    ensures IsDigit(c) && c as int - '0' as int == d
  {
    (('0' as int) + d) as char
  }

  /** The value of a string of decimal digits, most significant first. */
  function DigitsValue(s: string): nat
    requires AllDigits(s)
  {
    if |s| == 0 then 0
    else DigitsValue(s[..|s| - 1]) * 10 + (s[|s| - 1] as int - '0' as int)
  }

  /** The decimal digits of a natural number, no leading zeros. */
  function NatToDecimal(n: nat): (s: string)
    ensures |s| >= 1 && AllDigits(s)
    decreases n
  {
    if n < 10 then [DigitChar(n)] else NatToDecimal(n / 10) + [DigitChar(n % 10)]
  }

  /** `'%d' % i`: a minus sign for negative numbers, then the digits. */
  function FormatInt(i: int): (s: string)
    ensures IsWord(s)
  {
    if i < 0 then "-" + NatToDecimal(-i) else NatToDecimal(i)
  }

  /** Python 2 `int(token)` for a token without surrounding whitespace:
      an optional sign and at least one decimal digit; anything else raises. */
  function ParseInt(t: string): (r: Option<int>)
    ensures r.Some? ==> |t| >= 1
  {
    if |t| > 1 && (t[0] == '-' || t[0] == '+') && AllDigits(t[1..]) then
      var v: int := DigitsValue(t[1..]);
      Some(if t[0] == '-' then -v else v)
    else if |t| > 0 && AllDigits(t) then Some(DigitsValue(t))
    else None
  }

  /** Python 2 `int(line.strip())` (equivalently `int(line)`, which strips
      itself): a single integer token, or a sign and a run of digits with
      whitespace between them, which CPython 2 skips after the sign. */
  function ParseIntLine(line: string): (r: Option<int>)
    ensures var ws := Words(line);
      r.Some? <==>
        || (|ws| == 1 && ParseInt(ws[0]).Some?)
        || (|ws| == 2 && (ws[0] == "+" || ws[0] == "-") && ParseInt(ws[0] + ws[1]).Some?)
    ensures |Words(line)| == 1 ==> r == ParseInt(Words(line)[0])
    ensures |Words(line)| == 2 && (Words(line)[0] == "+" || Words(line)[0] == "-")
            ==> r == ParseInt(Words(line)[0] + Words(line)[1])
  {
    var ws := Words(line);
    if |ws| == 1 then ParseInt(ws[0])
    else if |ws| == 2 && (ws[0] == "+" || ws[0] == "-") then ParseInt(ws[0] + ws[1])
    else None
  }

  /** A digit run is a word. */
  lemma DigitsAreWord(digits: string)
    requires |digits| >= 1 && AllDigits(digits)
    ensures IsWord(digits)
  {
    forall i | 0 <= i < |digits| ensures !IsSpace(digits[i]) {
      assert IsDigit(digits[i]);
    }
  }

  /** A sign glued to a digit run parses as the signed value. */
  lemma ParseSigned(sign: string, digits: string)
    requires (sign == "+" || sign == "-") && |digits| >= 1 && AllDigits(digits)
    ensures ParseInt(sign + digits) == Some(if sign == "-" then -(DigitsValue(digits) as int) else DigitsValue(digits))
  {
    var t := sign + digits;
    assert t[0] == sign[0] && t[1..] == digits;
  }

  /** A sign, a space and a digit run: CPython 2 skips the space after the
      sign, so the line reads as the signed value. */
  lemma ParseSeparatedSign(sign: string, digits: string)
    requires (sign == "+" || sign == "-") && |digits| >= 1 && AllDigits(digits)
    ensures ParseIntLine(sign + " " + digits) == Some(if sign == "-" then -(DigitsValue(digits) as int) else DigitsValue(digits))
  {
    DigitsAreWord(digits);
    WordsSpaced(sign, digits);
    WordsSingle(digits);
    assert Words(sign + " " + digits) == [sign, digits];
    ParseSigned(sign, digits);
  }

  lemma {:induction false} NatToDecimalValue(n: nat)
    ensures DigitsValue(NatToDecimal(n)) == n
    decreases n
  {
    if n >= 10 {
      NatToDecimalValue(n / 10);
      var s := NatToDecimal(n);
      assert s[..|s| - 1] == NatToDecimal(n / 10);
    }
  }

  /** Reading back what `'%d'` wrote gives the number. */
  lemma {:induction false} ParseFormatInt(i: int)
    ensures ParseInt(FormatInt(i)) == Some(i)
  {
    if i < 0 {
      var d := NatToDecimal(-i);
      NatToDecimalValue(-i);
      assert FormatInt(i) == "-" + d;
      assert ("-" + d)[1..] == d;
    } else {
      var d := NatToDecimal(i);
      NatToDecimalValue(i);
      assert FormatInt(i) == d;
      assert IsDigit(d[0]);
    }
  }

  // ---------------------------------------------------------------------
  // Lower case, paths, slicing, list insertion
  // ---------------------------------------------------------------------

  function LowerChar(c: char): (d: char)
    ensures 'A' <= c <= 'Z' ==> d as int == c as int + 32
    ensures !('A' <= c <= 'Z') ==> d == c
  {
    if 'A' <= c <= 'Z' then (c as int + 32) as char else c
  }

  /** A formatted integer is a sign and digits: it holds no dot. */
  lemma FormatIntNoDot(i: int)
    ensures '.' !in FormatInt(i)
    ensures FormatInt(i)[0] == '-' || IsDigit(FormatInt(i)[0])
  {
    var d := NatToDecimal(if i < 0 then -i else i);
    assert FormatInt(i) == (if i < 0 then "-" + d else d);
    forall k | 0 <= k < |FormatInt(i)|
      ensures FormatInt(i)[k] != '.'
    {
      if i < 0 && k > 0 {
        assert FormatInt(i)[k] == d[k - 1];
      }
    }
  }

  /** Distinct integers format differently. */
  lemma FormatIntInjective(i: int, j: int)
    requires i != j
    ensures FormatInt(i) != FormatInt(j)
  {
    ParseFormatInt(i);
    ParseFormatInt(j);
  }

  /** Python 2 `str.lower()` on a byte string: ASCII upper-case letters only. */
  function Lower(s: string): (r: string)
    ensures |r| == |s|
    ensures forall i :: 0 <= i < |r| ==> !('A' <= r[i] <= 'Z')
    ensures forall i :: 0 <= i < |s| && 'A' <= s[i] <= 'Z' ==> r[i] as int == s[i] as int + 32
    ensures forall i :: 0 <= i < |s| && !('A' <= s[i] <= 'Z') ==> r[i] == s[i]
  {
    seq(|s|, i requires 0 <= i < |s| => LowerChar(s[i]))
  }

  /** Lowering twice is lowering once. */
  lemma LowerIdempotent(s: string)
    ensures Lower(Lower(s)) == Lower(s)
  {
  }

  /** `os.path.isabs` on POSIX. */
  predicate IsAbs(p: string)
  {
    |p| > 0 && p[0] == '/'
  }

  /** `os.path.basename` on POSIX: everything after the last slash. */
  function Basename(p: string): (b: string)
    ensures '/' !in b
  {
    if |p| == 0 || p[|p| - 1] == '/' then ""
    else Basename(p[..|p| - 1]) + [p[|p| - 1]]
  }

  /** The base name is the end of the path, and a slash precedes it unless
      it is the whole path: it is what follows the last slash. */
  lemma {:induction false} BasenameIsLastComponent(p: string)
    ensures var b := Basename(p);
      |b| <= |p| && p[|p| - |b|..] == b && (|b| < |p| ==> p[|p| - |b| - 1] == '/')
    decreases |p|
  {
    if |p| > 0 && p[|p| - 1] != '/' {
      var q, c := p[..|p| - 1], p[|p| - 1];
      BasenameIsLastComponent(q);
      var b := Basename(q);
      assert p == q + [c];
      assert Basename(p) == b + [c];
      SuffixSnoc(q, c, b);
      if |b| < |q| {
        assert p[|q| - |b| - 1] == q[|q| - |b| - 1];
      }
    }
  }

  /** A suffix stays a suffix when both grow by the same element. */
  lemma SuffixSnoc(q: string, c: char, b: string)
    requires |b| <= |q| && q[|q| - |b|..] == b
    ensures (q + [c])[|q| - |b|..] == b + [c]
  {
    assert (q + [c])[|q| - |b|..] == q[|q| - |b|..] + [c];
  }

  /** `os.path.join(a, b)` on POSIX, two arguments: an absolute `b` replaces
      `a`; otherwise a slash is put between them unless `a` is empty or
      already ends in one. */
  function PathJoin(a: string, b: string): (p: string)
    ensures IsAbs(b) ==> p == b
    ensures !IsAbs(b) && (|a| == 0 || a[|a| - 1] == '/') ==> p == a + b
    ensures !IsAbs(b) && |a| > 0 && a[|a| - 1] != '/' ==> p == a + "/" + b
  {
    if IsAbs(b) then b
    else if |a| == 0 || a[|a| - 1] == '/' then a + b
    else a + "/" + b
  }

  /** The base name of a path joined onto a directory is the joined name. */
  lemma BasenameOfJoin(a: string, b: string)
    requires '/' !in b
    ensures Basename(PathJoin(a, b)) == b
  {
    if |a| == 0 || a[|a| - 1] == '/' {
      BasenameAfterSlash(a, b);
    } else {
      assert a + "/" + b == (a + "/") + b;
      BasenameAfterSlash(a + "/", b);
    }
  }

  /** The base name of `x + b`, when `x` is empty or ends in a slash and `b`
      holds none, is `b`. */
  lemma {:induction false} BasenameAfterSlash(x: string, b: string)
    requires '/' !in b
    requires |x| == 0 || x[|x| - 1] == '/'
    ensures Basename(x + b) == b
    decreases |b|
  {
    if |b| == 0 {
      assert x + b == x;
    } else {
      var c := b[|b| - 1];
      assert c in b;
      assert (x + b)[..|x + b| - 1] == x + b[..|b| - 1];
      BasenameAfterSlash(x, b[..|b| - 1]);
      assert b[..|b| - 1] + [c] == b;
    }
  }

  /** A slice bound or an insertion index as Python normalises it: negative
      values count from the end, and the result is clamped to `0..n`. */
  function ClampIndex(i: int, n: nat): (k: nat)
    ensures k <= n
    ensures 0 <= i <= n ==> k == i
    ensures i < 0 && i + n >= 0 ==> k == i + n
  {
    if i < 0 then (if i + n < 0 then 0 else i + n)
    else if i > n then n
    else i
  }

  /** Python `s[a:b]`. */
  function Slice<T>(s: seq<T>, a: int, b: int): (r: seq<T>)
    ensures 0 <= a <= b <= |s| ==> r == s[a..b]
    ensures 0 <= a && b < 0 && a <= b + |s| ==> r == s[a..b + |s|]
    ensures |r| <= |s|
  {
    var lo := ClampIndex(a, |s|);
    var hi := ClampIndex(b, |s|);
    if lo <= hi then s[lo..hi] else []
  }

  /** Python `xs.insert(i, x)`, as the new value of `xs`. */
  function Insert<T>(xs: seq<T>, i: int, x: T): (r: seq<T>)
    ensures |r| == |xs| + 1
    ensures var k := ClampIndex(i, |xs|); r[k] == x && r[..k] == xs[..k] && r[k + 1..] == xs[k..]
  {
    var k := ClampIndex(i, |xs|);
    xs[..k] + [x] + xs[k..]
  }
}
