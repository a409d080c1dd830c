/** String operations the three cores borrow from the JavaScript and Kotlin
    standard libraries, written out character by character. */
module Text {

  /** The smaller of two numbers: the length `slice(0, n)` keeps. */
  function Min(a: int, b: int): int {
    if a <= b then a else b
  }

  /** `s.replace(/c/g, rep)`: every occurrence of the character `c`,
      scanned left to right, is replaced by `rep`. */
  function ReplaceAll(s: string, c: char, rep: string): string {
    if s == [] then []
    else (if s[0] == c then rep else [s[0]]) + ReplaceAll(s[1..], c, rep)
  }

  /** A character absent from `rep` is absent from the result when it is
      the replaced one or was absent from `s`. */
  lemma {:induction false} ReplaceAllKeepsOut(s: string, c: char, rep: string, x: char)
    requires (x == c || x !in s) && x !in rep
    ensures x !in ReplaceAll(s, c, rep)
  {
    if s != [] {
      ReplaceAllKeepsOut(s[1..], c, rep, x);
    }
  }

  /** Without an occurrence of `c` there is nothing to replace. */
  lemma {:induction false} ReplaceAllAbsent(s: string, c: char, rep: string)
    requires c !in s
    ensures ReplaceAll(s, c, rep) == s
  {
    if s != [] {
      assert s == [s[0]] + s[1..];
      ReplaceAllAbsent(s[1..], c, rep);
    }
  }

  /** Replacing a character distributes over concatenation. */
  lemma {:induction false} ReplaceAllAppend(a: string, b: string, c: char, rep: string)
    ensures ReplaceAll(a + b, c, rep) == ReplaceAll(a, c, rep) + ReplaceAll(b, c, rep)
  {
    if a == [] {
      assert a + b == b;
    } else {
      assert (a + b)[1..] == a[1..] + b;
      ReplaceAllAppend(a[1..], b, c, rep);
    }
  }

  /** Number of occurrences of `c` in `s`. */
  function CountChar(s: string, c: char): (n: nat)
    ensures n <= |s|
    ensures n == 0 <==> c !in s
  {
    if s == [] then 0 else (if s[0] == c then 1 else 0) + CountChar(s[1..], c)
  }

  lemma {:induction false} CountCharAppend(a: string, b: string, c: char)
    ensures CountChar(a + b, c) == CountChar(a, c) + CountChar(b, c)
  {
    if a == [] {
      assert a + b == b;
    } else {
      assert (a + b)[1..] == a[1..] + b;
      CountCharAppend(a[1..], b, c);
    }
  }

  predicate StartsWith(s: string, prefix: string) {
    |prefix| <= |s| && s[..|prefix|] == prefix
  }

  predicate EndsWith(s: string, suffix: string) {
    |suffix| <= |s| && s[|s| - |suffix|..] == suffix
  }

  /** A string that differs from `prefix` at some position does not start with it. */
  lemma StartsWithMismatch(s: string, prefix: string, k: nat)
    requires k < |s| && k < |prefix| && s[k] != prefix[k]
    ensures !StartsWith(s, prefix)
  {
  }

  /** Kotlin's `removePrefix`: drops `prefix` once if `s` starts with it. */
  function RemovePrefix(s: string, prefix: string): string {
    if StartsWith(s, prefix) then s[|prefix|..] else s
  }

  /** Kotlin's `removeSuffix`: drops `suffix` once if `s` ends with it. */
  function RemoveSuffix(s: string, suffix: string): string {
    if EndsWith(s, suffix) then s[..|s| - |suffix|] else s
  }

  /** Drops the leading characters that `isSpace` accepts. */
  function TrimStart(s: string, isSpace: char -> bool): (r: string)
    ensures |r| <= |s|
    ensures r != [] ==> !isSpace(r[0])
  {
    if s != [] && isSpace(s[0]) then TrimStart(s[1..], isSpace) else s
  }

  /** The left trim keeps a suffix and drops only whitespace. */
  lemma {:induction false} TrimStartDropsSpace(s: string, isSpace: char -> bool)
    ensures TrimStart(s, isSpace) == s[|s| - |TrimStart(s, isSpace)|..]
    ensures forall i :: 0 <= i < |s| - |TrimStart(s, isSpace)| ==> isSpace(s[i])
  {
    if s != [] && isSpace(s[0]) {
      TrimStartDropsSpace(s[1..], isSpace);
      assert s[1..][|s[1..]| - |TrimStart(s, isSpace)|..] == s[|s| - |TrimStart(s, isSpace)|..];
      forall i | 0 <= i < |s| - |TrimStart(s, isSpace)| ensures isSpace(s[i]) {
        if i > 0 {
          assert s[i] == s[1..][i - 1];
        }
      }
    }
  }

  /** Drops the trailing characters that `isSpace` accepts. */
  function TrimEnd(s: string, isSpace: char -> bool): (r: string)
    ensures |r| <= |s|
    ensures r != [] ==> !isSpace(r[|r| - 1])
  {
    if s != [] && isSpace(s[|s| - 1]) then TrimEnd(s[..|s| - 1], isSpace) else s
  }

  /** The right trim keeps a prefix and drops only whitespace. */
  lemma {:induction false} TrimEndDropsSpace(s: string, isSpace: char -> bool)
    ensures TrimEnd(s, isSpace) == s[..|TrimEnd(s, isSpace)|]
    ensures forall i :: |TrimEnd(s, isSpace)| <= i < |s| ==> isSpace(s[i])
  {
    if s != [] && isSpace(s[|s| - 1]) {
      TrimEndDropsSpace(s[..|s| - 1], isSpace);
      assert s[..|s| - 1][..|TrimEnd(s, isSpace)|] == s[..|TrimEnd(s, isSpace)|];
      forall i | |TrimEnd(s, isSpace)| <= i < |s| ensures isSpace(s[i]) {
        if i < |s| - 1 {
          assert s[i] == s[..|s| - 1][i];
        }
      }
    }
  }

  /** `trim()`, for the whitespace set `isSpace` of the runtime at hand. */
  function Trim(s: string, isSpace: char -> bool): (r: string)
    ensures r != [] ==> !isSpace(r[0]) && !isSpace(r[|r| - 1])
  {
    TrimEndDropsSpace(TrimStart(s, isSpace), isSpace);
    TrimEnd(TrimStart(s, isSpace), isSpace)
  }

  lemma TrimStartAfterSpace(c: char, s: string, isSpace: char -> bool)
    requires isSpace(c)
    ensures TrimStart([c] + s, isSpace) == TrimStart(s, isSpace)
  {
    assert ([c] + s)[1..] == s;
  }

  lemma TrimEndBeforeSpace(s: string, c: char, isSpace: char -> bool)
    requires isSpace(c)
    ensures TrimEnd(s + [c], isSpace) == TrimEnd(s, isSpace)
  {
    assert (s + [c])[..|s|] == s;
  }

  /** The trimmed string is empty exactly when every character is whitespace. */
  lemma TrimEmptyIffBlank(s: string, isSpace: char -> bool)
    ensures Trim(s, isSpace) == [] <==> forall i :: 0 <= i < |s| ==> isSpace(s[i])
  {
    var t := TrimStart(s, isSpace);
    TrimStartDropsSpace(s, isSpace);
    TrimEndDropsSpace(t, isSpace);
    if Trim(s, isSpace) == [] {
      forall i | 0 <= i < |s| ensures isSpace(s[i]) {
        if i >= |s| - |t| {
          assert s[i] == t[i - (|s| - |t|)];
        }
      }
    } else {
      var r := Trim(s, isSpace);
      assert r[0] == t[0] == s[|s| - |t|];
    }
  }

  /** A string already free of whitespace at both ends is its own trim. */
  lemma TrimTrimmed(s: string, isSpace: char -> bool)
    requires s != [] ==> !isSpace(s[0]) && !isSpace(s[|s| - 1])
    ensures Trim(s, isSpace) == s
  {
  }

  function DigitChar(d: nat): (c: char)
    requires d < 10
    ensures '0' <= c <= '9'
  {
    ('0' as int + d) as char
  }

  function DigitValue(c: char): nat
    requires '0' <= c <= '9'
  {
    c as int - '0' as int
  }

  predicate IsDigits(s: string) {
    forall i :: 0 <= i < |s| ==> '0' <= s[i] <= '9'
  }

  /** The decimal numeral of `n`, as JavaScript and Kotlin print an integer. */
  function Decimal(n: nat): (r: string)
    ensures r != [] && IsDigits(r)
    ensures n == 0 ==> r == "0"
    ensures n > 0 ==> r[0] != '0'
  {
    if n < 10 then [DigitChar(n)] else Decimal(n / 10) + [DigitChar(n % 10)]
  }

  /** Reads a numeral back. */
  function ParseDecimal(s: string): nat
    requires IsDigits(s)
  {
    if s == [] then 0 else 10 * ParseDecimal(s[..|s| - 1]) + DigitValue(s[|s| - 1])
  }

  /** No two numbers print alike: the numeral reads back as the number. */
  lemma {:induction false} ParseDecimalInverts(n: nat)
    ensures ParseDecimal(Decimal(n)) == n
  {
    if n >= 10 {
      var r := Decimal(n);
      assert r[..|r| - 1] == Decimal(n / 10);
      ParseDecimalInverts(n / 10);
    }
  }

  function TotalLength(xs: seq<string>): nat {
    if xs == [] then 0 else |xs[0]| + TotalLength(xs[1..])
  }

  /** `xs.join(sep)` in JavaScript. */
  function Join(xs: seq<string>, sep: string): (r: string)
    ensures |r| == TotalLength(xs) + (if xs == [] then 0 else (|xs| - 1) * |sep|)
  {
    if xs == [] then ""
    else if |xs| == 1 then xs[0]
    else xs[0] + sep + Join(xs[1..], sep)
  }

  /** The concatenation of `f(x)` for every `x` in order. */
  function ConcatMap<T>(xs: seq<T>, f: T -> string): string {
    if xs == [] then "" else f(xs[0]) + ConcatMap(xs[1..], f)
  }

  /** Appending one more element appends its image: what each step of a
      `forEach` loop that does `acc += f(x)` relies on. */
  lemma {:induction false} ConcatMapSnoc<T>(xs: seq<T>, x: T, f: T -> string)
    ensures ConcatMap(xs + [x], f) == ConcatMap(xs, f) + f(x)
  {
    if xs == [] {
      assert xs + [x] == [x];
    } else {
      assert (xs + [x])[1..] == xs[1..] + [x];
      ConcatMapSnoc(xs[1..], x, f);
    }
  }

  /** `xs.map(f)`. */
  function Map<T, U>(xs: seq<T>, f: T -> U): (ys: seq<U>)
    ensures |ys| == |xs|
  {
    if xs == [] then [] else [f(xs[0])] + Map(xs[1..], f)
  }

  lemma {:induction false} MapAt<T, U>(xs: seq<T>, f: T -> U, k: nat)
    requires k < |xs|
    ensures Map(xs, f)[k] == f(xs[k])
  {
    if k > 0 {
      MapAt(xs[1..], f, k - 1);
    }
  }

  lemma {:induction false} MapSnoc<T, U>(xs: seq<T>, x: T, f: T -> U)
    ensures Map(xs + [x], f) == Map(xs, f) + [f(x)]
  {
    if xs == [] {
      assert [x][1..] == [];
    } else {
      assert (xs + [x])[1..] == xs[1..] + [x];
      MapSnoc(xs[1..], x, f);
    }
  }

  /** Index of the first newline in `s`, or `|s|` when there is none. */
  function LineEnd(s: string): (k: nat)
    ensures k <= |s| && (k < |s| ==> s[k] == '\n')
    ensures forall i :: 0 <= i < k ==> s[i] != '\n'
  {
    if s == [] || s[0] == '\n' then 0 else 1 + LineEnd(s[1..])
  }

  /** The lines of text whose lines each end in a newline. */
  function Lines(s: string): seq<string>
    decreases |s|
  {
    if s == [] then []
    else
      var k := LineEnd(s);
      [s[..k]] + (if k < |s| then Lines(s[k + 1..]) else [])
  }

  /** A newline-free line followed by a newline is the first line. */
  lemma LinesCons(a: string, b: string)
    requires '\n' !in a
    ensures Lines(a + "\n" + b) == [a] + Lines(b)
  {
    var s := a + "\n" + b;
    var k := LineEnd(s);
    assert s[|a|] == '\n';
    assert k == |a|;
    assert s[..k] == a;
    assert s[k + 1..] == b;
  }

  lemma AppendAssociates(a: string, b: string, c: string)
    ensures a + b + c == a + (b + c)
  {
  }

  /** The lines, each followed by a newline, in order. */
  function Terminated(lines: seq<string>): string {
    if lines == [] then "" else lines[0] + "\n" + Terminated(lines[1..])
  }

  lemma {:induction false} TerminatedSnoc(lines: seq<string>, line: string)
    ensures Terminated(lines + [line]) == Terminated(lines) + (line + "\n")
  {
    if lines == [] {
      assert [line][1..] == [];
      assert line + "\n" + "" == "" + line + "\n";
    } else {
      assert (lines + [line])[1..] == lines[1..] + [line];
      TerminatedSnoc(lines[1..], line);
    }
  }

  lemma {:induction false} TerminatedAppend(a: seq<string>, b: seq<string>)
    ensures Terminated(a + b) == Terminated(a) + Terminated(b)
  {
    if a == [] {
      assert a + b == b;
    } else {
      assert (a + b)[1..] == a[1..] + b;
      TerminatedAppend(a[1..], b);
    }
  }

  /** Splitting newline-free lines that were each terminated by a newline
      gives the lines back. */
  lemma {:induction false} LinesTerminated(lines: seq<string>)
    requires forall k :: 0 <= k < |lines| ==> '\n' !in lines[k]
    ensures Lines(Terminated(lines)) == lines
  {
    if lines != [] {
      LinesCons(lines[0], Terminated(lines[1..]));
      LinesTerminated(lines[1..]);
    }
  }
}
