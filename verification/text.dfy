/**
  The string primitives the display code relies on: .NET `String.Split(char)`,
  its inverse `String.Join`, and the "one line per item" layout that
  `SerializeDictionary` builds with `+=`.
 */
module Text {

  /**
    `s.Split(d)`: every maximal run between delimiters, empty pieces included,
    so a string with n delimiters always gives n + 1 pieces.
   */
  function Split(s: string, d: char): (pieces: seq<string>)
    ensures |pieces| == Count(s, d) + 1
    ensures forall i :: 0 <= i < |pieces| ==> d !in pieces[i]
  {
    if |s| == 0 then [""]
    else
      var rest := Split(s[1..], d);
      if s[0] == d then [""] + rest
      else [[s[0]] + rest[0]] + rest[1..]
  }

  /** The number of occurrences of `c` in `s`. */
  function Count(s: string, c: char): nat {
    if |s| == 0 then 0 else (if s[0] == c then 1 else 0) + Count(s[1..], c)
  }

  /** `String.Join(d, pieces)`: the pieces with one `d` between neighbours. */
  function Join(pieces: seq<string>, d: char): string
    requires |pieces| >= 1
  {
    if |pieces| == 1 then pieces[0] else pieces[0] + [d] + Join(pieces[1..], d)
  }

  /** Every line followed by a newline, as a `+=` loop over `$"...\n"` builds it. */
  function Terminated(lines: seq<string>): string {
    if |lines| == 0 then "" else lines[0] + "\n" + Terminated(lines[1..])
  }

  /**
    The position of the first `ch` in `text`, or -1 when there is none. It is
    not a call of the source: it serves the model's line reader
    `Profiles.ParseLine`, which uses it to find the space after a symbol.
   */
  function IndexOf(text: string, ch: char): (i: int)
    ensures -1 <= i < |text|
    ensures i == -1 <==> ch !in text
    ensures i >= 0 ==> text[i] == ch && ch !in text[..i]
  {
    if |text| == 0 then -1
    else if text[0] == ch then 0
    else
      var rest := IndexOf(text[1..], ch);
      if rest == -1 then -1
      else
        assert text[..rest + 1] == [text[0]] + text[1..][..rest];
        rest + 1
  }

  /** In `p + [c] + q` with no `c` in `p`, the first `c` sits right after `p`. */
  lemma {:induction false} IndexOfAfterPrefix(p: string, c: char, q: string)
    requires c !in p
    ensures IndexOf(p + [c] + q, c) == |p|
  {
    if |p| > 0 {
      IndexOfAfterPrefix(p[1..], c, q);
      assert (p + [c] + q)[1..] == p[1..] + [c] + q;
    }
  }

  /** Joining the pieces of a split gives back the original string. */
  lemma {:induction false} JoinSplit(s: string, d: char)
    ensures Join(Split(s, d), d) == s
  {
    if |s| > 0 {
      var rest := Split(s[1..], d);
      JoinSplit(s[1..], d);
      if s[0] == d {
        assert Split(s, d)[1..] == rest;
      } else {
        var pieces := Split(s, d);
        if |rest| == 1 {
          assert pieces == [[s[0]] + rest[0]];
        } else {
          assert pieces[1..] == rest[1..];
          assert Join(pieces, d) == [s[0]] + (rest[0] + [d] + Join(rest[1..], d));
        }
        assert s == [s[0]] + s[1..];
      }
    }
  }

  /** Splitting a delimiter-free prefix glued to `t` extends only the first piece of `t`. */
  lemma {:induction false} SplitPrefix(p: string, t: string, d: char)
    requires d !in p
    ensures Split(p + t, d) == [p + Split(t, d)[0]] + Split(t, d)[1..]
  {
    if |p| > 0 {
      SplitPrefix(p[1..], t, d);
      assert (p + t)[1..] == p[1..] + t;
      assert [p[0]] + (p[1..] + Split(t, d)[0]) == p + Split(t, d)[0];
    } else {
      var pieces := Split(t, d);
      assert p + t == t && p + pieces[0] == pieces[0];
      assert pieces == [pieces[0]] + pieces[1..];
    }
  }

  /** Splitting a join of delimiter-free pieces gives the pieces back. */
  lemma {:induction false} SplitJoin(pieces: seq<string>, d: char)
    requires |pieces| >= 1
    requires forall i :: 0 <= i < |pieces| ==> d !in pieces[i]
    ensures Split(Join(pieces, d), d) == pieces
  {
    if |pieces| > 1 {
      var tail := Join(pieces[1..], d);
      SplitJoin(pieces[1..], d);
      assert pieces[0] + [d] + tail == pieces[0] + ([d] + tail);
      SplitPrefix(pieces[0], [d] + tail, d);
      assert ([d] + tail)[1..] == tail;
      assert Split([d] + tail, d) == [""] + pieces[1..];
      assert pieces[0] + "" == pieces[0];
      assert pieces == [pieces[0]] + pieces[1..];
    } else {
      SplitPrefix(pieces[0], "", d);
      assert pieces[0] + "" == pieces[0];
    }
  }

  /** Newline-terminated lines are the join of the lines and one empty last piece. */
  lemma {:induction false} TerminatedIsJoin(lines: seq<string>)
    ensures Terminated(lines) == Join(lines + [""], '\n')
  {
    if |lines| > 0 {
      TerminatedIsJoin(lines[1..]);
      assert (lines + [""])[1..] == lines[1..] + [""];
    }
  }

  /** Terminated layout distributes over concatenation of line lists. */
  lemma {:induction false} TerminatedAppend(a: seq<string>, b: seq<string>)
    ensures Terminated(a + b) == Terminated(a) + Terminated(b)
  {
    if |a| > 0 {
      TerminatedAppend(a[1..], b);
      assert (a + b)[1..] == a[1..] + b;
    } else {
      assert a + b == b;
    }
  }

  /**
    Splitting newline-terminated, newline-free lines on '\n' yields exactly the
    lines followed by one empty piece.
   */
  lemma {:induction false} SplitTerminated(lines: seq<string>)
    requires forall i :: 0 <= i < |lines| ==> '\n' !in lines[i]
    ensures Split(Terminated(lines), '\n') == lines + [""]
  {
    TerminatedIsJoin(lines);
    SplitJoin(lines + [""], '\n');
  }

  /** A string that ends with the delimiter splits into pieces whose last one is empty. */
  lemma {:induction false} SplitLastEmpty(s: string, d: char)
    ensures var pieces := Split(s + [d], d); |pieces| >= 2 && pieces[|pieces| - 1] == ""
  {
    if |s| == 0 {
      assert [d][1..] == "";
    } else {
      SplitLastEmpty(s[1..], d);
      assert (s + [d])[1..] == s[1..] + [d];
    }
  }

  /** Newline-terminated text, whatever its lines hold, splits on '\n' into pieces ending with an empty one. */
  lemma {:induction false} TerminatedLastEmpty(lines: seq<string>)
    ensures var pieces := Split(Terminated(lines), '\n'); pieces[|pieces| - 1] == ""
  {
    if |lines| > 0 {
      var n := |lines| - 1;
      assert lines == lines[..n] + [lines[n]];
      TerminatedAppend(lines[..n], [lines[n]]);
      assert Terminated([lines[n]]) == lines[n] + "\n";
      SplitLastEmpty(Terminated(lines[..n]) + lines[n], '\n');
      assert Terminated(lines) == (Terminated(lines[..n]) + lines[n]) + ['\n'];
    }
  }
}
