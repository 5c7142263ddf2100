/**
 * How paramedic/writer.go splits a buffered entry into log messages: a
 * `bufio.Scanner` over the entry's text with the default split function
 * `bufio.ScanLines`. Characters stand for the bytes of Go's strings.
 */
module Lines {
  import opened Common

  /** `bufio.MaxScanTokenSize`. */
  const MaxScanTokenSize: nat := 64 * 1024

  /** The position of the first `c` in `s`, or `|s|` when there is none. */
  function IndexOf(s: string, c: char): (i: nat)
    ensures i <= |s|
    ensures i < |s| ==> s[i] == c
  {
    if s == [] then 0
    else if s[0] == c then 0
    else 1 + IndexOf(s[1..], c)
  }

  /** Nothing before `IndexOf(s, c)` is a `c`. */
  lemma {:induction false} IndexOfFirst(s: string, c: char)
    ensures c !in s[..IndexOf(s, c)]
    decreases |s|
  {
    if s != [] && s[0] != c {
      IndexOfFirst(s[1..], c);
      assert s[..IndexOf(s, c)] == [s[0]] + s[1..][..IndexOf(s[1..], c)];
    }
  }

  /** Drops one trailing carriage return (`dropCR`). */
  function DropCR(t: string): (r: string)
    ensures |t| > 0 && t[|t| - 1] == '\r' ==> t == r + "\r"
    ensures !(|t| > 0 && t[|t| - 1] == '\r') ==> r == t
  {
    if |t| > 0 && t[|t| - 1] == '\r' then t[..|t| - 1] else t
  }

  /** The tokens a `bufio.Scanner` with `ScanLines` yields for `s`: split at each
      newline, drop one carriage return before it, keep a non-empty unterminated
      tail, and yield no empty token after a final newline. */
  function ScanLines(s: string): (lines: seq<string>)
    // every token consumes at least one character, and text gives a token
    ensures |lines| <= |s|
    ensures s != [] ==> |lines| > 0
    decreases |s|
  {
    if s == [] then []
    else
      var i := IndexOf(s, '\n');
      if i == |s| then [DropCR(s)]
      else [DropCR(s[..i])] + ScanLines(s[i + 1..])
  }

  /** Every line is short enough for the scanner's default buffer, so the
      scanner never stops early with `ErrTooLong`. */
  predicate WithinTokenLimit(s: string)
    decreases |s|
  {
    var i := IndexOf(s, '\n');
    i + 1 <= MaxScanTokenSize && (i < |s| ==> WithinTokenLimit(s[i + 1..]))
  }

  /** `IndexOf` finds the first `c`, wherever it is. */
  lemma {:induction false} IndexOfAt(s: string, c: char, k: nat)
    requires k < |s| && s[k] == c && c !in s[..k]
    ensures IndexOf(s, c) == k
    decreases k
  {
    if k > 0 {
      assert s[0] in s[..k];
      assert s[1..][..k - 1] == s[1..k];
      assert forall x :: x in s[1..k] ==> x in s[..k];
      IndexOfAt(s[1..], c, k - 1);
    }
  }

  /** A line ended by CRLF gives the line without its carriage return. */
  lemma ScanLinesCRLF(a: string, b: string)
    requires '\n' !in a
    ensures ScanLines(a + "\r\n" + b) == [a] + ScanLines(b)
  {
    var s := a + "\r\n" + b;
    assert s[..|a| + 1] == a + "\r";
    assert s[|a| + 1] == '\n';
    assert s[|a| + 2..] == b;
    IndexOfAt(s, '\n', |a| + 1);
    assert DropCR(a + "\r") == a;
  }

  /** The number of occurrences of `c` in `s`. */
  function CountChar(s: string, c: char): nat {
    if s == [] then 0 else (if s[0] == c then 1 else 0) + CountChar(s[1..], c)
  }

  /** Whether `s` ends in an unterminated, non-empty line. */
  predicate HasTail(s: string) {
    s != [] && s[|s| - 1] != '\n'
  }

  lemma {:induction false} CountCharConcat(a: string, b: string, c: char)
    ensures CountChar(a + b, c) == CountChar(a, c) + CountChar(b, c)
    decreases |a|
  {
    if a != [] {
      assert (a + b)[0] == a[0];
      assert (a + b)[1..] == a[1..] + b;
      CountCharConcat(a[1..], b, c);
    } else {
      assert a + b == b;
    }
  }

  lemma {:induction false} CountCharAbsent(s: string, c: char)
    requires c !in s
    ensures CountChar(s, c) == 0
    decreases |s|
  {
    if s != [] {
      assert c !in s[1..];
      CountCharAbsent(s[1..], c);
    }
  }

  /** No line holds a newline. */
  lemma {:induction false} ScanLinesNoNewline(s: string)
    ensures forall k :: 0 <= k < |ScanLines(s)| ==> '\n' !in ScanLines(s)[k]
    decreases |s|
  {
    if s != [] {
      var i := IndexOf(s, '\n');
      IndexOfFirst(s, '\n');
      if i == |s| {
        assert s[..i] == s;
      } else {
        ScanLinesNoNewline(s[i + 1..]);
      }
    }
  }

  /** `k` newlines give `k` lines, plus one for an unterminated tail. */
  lemma {:induction false} ScanLinesCount(s: string)
    ensures |ScanLines(s)| == CountChar(s, '\n') + (if HasTail(s) then 1 else 0)
    decreases |s|
  {
    if s != [] {
      var i := IndexOf(s, '\n');
      IndexOfFirst(s, '\n');
      if i == |s| {
        assert s[..i] == s;
        CountCharAbsent(s, '\n');
      } else {
        CountAtFirstNewline(s, i);
        ScanLinesCount(s[i + 1..]);
      }
    }
  }

  /** Splitting at the first newline: one newline fewer in the rest, and the
      same unterminated tail. */
  lemma CountAtFirstNewline(s: string, i: nat)
    requires i < |s| && s[i] == '\n' && '\n' !in s[..i]
    ensures CountChar(s, '\n') == 1 + CountChar(s[i + 1..], '\n')
    ensures HasTail(s) == HasTail(s[i + 1..])
  {
    assert s == s[..i] + s[i..];
    CountCharAbsent(s[..i], '\n');
    CountCharConcat(s[..i], s[i..], '\n');
    assert s[i..][1..] == s[i + 1..];
  }

  /** The lines, each followed by a newline. */
  function Unlines(lines: seq<string>): string {
    if lines == [] then [] else lines[0] + "\n" + Unlines(lines[1..])
  }

  /** Without carriage returns the split loses nothing: joining the lines back
      gives the text, with a newline added after an unterminated tail. */
  lemma {:induction false} ScanLinesUnlines(s: string)
    requires '\r' !in s
    ensures Unlines(ScanLines(s)) == s + (if HasTail(s) then "\n" else "")
    decreases |s|
  {
    if s != [] {
      var i := IndexOf(s, '\n');
      if i == |s| {
        IndexOfFirst(s, '\n');
        assert s[..i] == s;
        assert DropCR(s) == s;
        assert ScanLines(s) == [s];
        assert Unlines([s]) == s + "\n" + Unlines([]);
      } else {
        var head, rest := s[..i], s[i + 1..];
        assert s == head + "\n" + rest;
        assert '\r' !in head && '\r' !in rest;
        var lines := ScanLines(s);
        assert lines == [head] + ScanLines(rest) by {
          assert DropCR(head) == head;
        }
        ScanLinesUnlines(rest);
        assert HasTail(s) == HasTail(rest);
        calc {
          Unlines(lines);
          lines[0] + "\n" + Unlines(lines[1..]);
          { assert lines[1..] == ScanLines(rest); }
          (head + "\n") + (rest + (if HasTail(rest) then "\n" else ""));
          { ConcatAssoc(head + "\n", rest, if HasTail(rest) then "\n" else ""); }
          ((head + "\n") + rest) + (if HasTail(rest) then "\n" else "");
          s + (if HasTail(s) then "\n" else "");
        }
      }
    }
  }

  /** The write "abc\ndef" splits into "abc" then "def". */
  lemma ScanLinesExample()
    ensures ScanLines("abc\ndef") == ["abc", "def"]
  {
    var s := "abc\ndef";
    assert s[1..] == "bc\ndef" && s[1..][1..] == "c\ndef" && s[1..][1..][1..] == "\ndef";
    assert IndexOf(s, '\n') == 3;
    assert s[..3] == "abc" && s[4..] == "def";
    var t := "def";
    assert t[1..] == "ef" && t[1..][1..] == "f" && t[1..][1..][1..] == "";
    assert IndexOf(t, '\n') == 3;
    assert ScanLines(t) == ["def"];
  }
}
