/**
 * Splitting text on "\n" as JavaScript's `String.prototype.split("\n")`
 * does, and the two ways of cutting a stream of chunks into lines: per chunk
 * with nothing carried over (what the client does), and with a carry-over
 * buffer for the unfinished last line (what it should do).
 */
module Lines {

  predicate NoNewline(s: string) {
    forall i :: 0 <= i < |s| ==> s[i] != '\n'
  }

  predicate AllLines(ls: seq<string>) {
    forall i :: 0 <= i < |ls| ==> NoNewline(ls[i])
  }

  lemma AppendAssoc<T>(a: seq<T>, b: seq<T>, c: seq<T>)
    ensures a + (b + c) == (a + b) + c
  {
  }

  function Last<T>(xs: seq<T>): T
    requires |xs| > 0
  {
    xs[|xs| - 1]
  }

  function Init<T>(xs: seq<T>): seq<T>
    requires |xs| > 0
  {
    xs[..|xs| - 1]
  }

  /**
   * `s.split("\n")`: the pieces between newlines, in order; always at least
   * one piece, and one more than there are newlines.
   */
  function Split(s: string): (ls: seq<string>)
    ensures |ls| > 0 && AllLines(ls)
    decreases |s|
  {
    if |s| == 0 then [""]
    else if s[0] == '\n' then [""] + Split(s[1..])
    else
      var r := Split(s[1..]);
      [[s[0]] + r[0]] + r[1..]
  }

  /** The pieces joined back with newlines: `ls.join("\n")`. */
  function Join(ls: seq<string>): string
    requires |ls| > 0
  {
    if |ls| == 1 then ls[0] else ls[0] + ("\n" + Join(ls[1..]))
  }

  /** Joining the pieces of a split gives back the text. */
  lemma {:induction false} JoinSplit(s: string)
    ensures Join(Split(s)) == s
    decreases |s|
  {
    if |s| > 0 {
      JoinSplit(s[1..]);
      var r := Split(s[1..]);
      if s[0] == '\n' {
        assert s == "\n" + s[1..];
      } else if |r| == 1 {
        assert s == [s[0]] + s[1..];
      } else {
        assert Split(s)[1..] == r[1..];
        assert s == [s[0]] + (r[0] + ("\n" + Join(r[1..])));
      }
    }
  }

  /** A text without newlines is one piece. */
  lemma {:induction false} SplitSingle(a: string)
    requires NoNewline(a)
    ensures Split(a) == [a]
    decreases |a|
  {
    if |a| > 0 {
      SplitSingle(a[1..]);
      assert [a[0]] + a[1..] == a;
    }
  }

  /** A piece followed by a newline splits off as the first piece. */
  lemma {:induction false} SplitLine(a: string, rest: string)
    requires NoNewline(a)
    ensures Split(a + ("\n" + rest)) == [a] + Split(rest)
    decreases |a|
  {
    var s := a + ("\n" + rest);
    if |a| == 0 {
      assert s == "\n" + rest;
      assert s[1..] == rest;
    } else {
      assert s[1..] == a[1..] + ("\n" + rest);
      SplitLine(a[1..], rest);
      assert [a[0]] + a[1..] == a;
    }
  }

  /** A piece followed by a blank line splits off with an empty piece. */
  lemma SplitBlankAfter(a: string, rest: string)
    requires NoNewline(a)
    ensures Split(a + ("\n\n" + rest)) == [a, ""] + Split(rest)
  {
    assert "\n\n" + rest == "\n" + ("" + ("\n" + rest));
    SplitLine(a, "" + ("\n" + rest));
    SplitLine("", rest);
  }

  /** Splitting the join of newline-free pieces gives back the pieces. */
  lemma {:induction false} SplitJoin(ls: seq<string>)
    requires |ls| > 0 && AllLines(ls)
    ensures Split(Join(ls)) == ls
    decreases |ls|
  {
    if |ls| == 1 {
      SplitSingle(ls[0]);
    } else {
      SplitJoin(ls[1..]);
      SplitLine(ls[0], Join(ls[1..]));
      assert [ls[0]] + ls[1..] == ls;
    }
  }

  /**
   * Splitting a concatenation: the last piece of the first part and the
   * first piece of the second part join up; all other pieces are kept.
   */
  lemma {:induction false} SplitAppend(a: string, b: string)
    ensures Split(a + b) == Init(Split(a)) + [Last(Split(a)) + Split(b)[0]] + Split(b)[1..]
    decreases |a|
  {
    if |a| == 0 {
      assert a + b == b;
      var bs := Split(b);
      assert Split(a) == [""];
      assert Init(Split(a)) == [] && Last(Split(a)) == "";
      assert "" + bs[0] == bs[0];
      assert bs == [] + [bs[0]] + bs[1..];
    } else {
      var c, t := a[0], a[1..];
      assert a == [c] + t;
      assert a + b == [c] + (t + b);
      SplitAppend(t, b);
      SplitCons(c, t);
      SplitCons(c, t + b);
      var bs := Split(b);
      if c == '\n' {
        GlueNewline(Split(t), bs[0], bs[1..]);
      } else {
        GlueChar(c, Split(t), bs[0], bs[1..]);
      }
    }
  }

  /** `Split` of a text with a known first character. */
  lemma SplitCons(c: char, t: string)
    ensures Split([c] + t) ==
      if c == '\n' then [""] + Split(t) else [[c] + Split(t)[0]] + Split(t)[1..]
  {
    var s := [c] + t;
    assert s[0] == c && s[1..] == t;
  }

  /** The list algebra of `SplitAppend` when the first character is a newline. */
  lemma GlueNewline(r: seq<string>, y: string, ys: seq<string>)
    requires |r| > 0
    ensures [""] + (Init(r) + [Last(r) + y] + ys) == Init([""] + r) + [Last([""] + r) + y] + ys
  {
    assert Init([""] + r) == [""] + Init(r);
  }

  /** The list algebra of `SplitAppend` when the first character is not a newline. */
  lemma GlueChar(c: char, r: seq<string>, y: string, ys: seq<string>)
    requires |r| > 0
    ensures var x := Init(r) + [Last(r) + y] + ys;
      var r' := [[c] + r[0]] + r[1..];
      [[c] + x[0]] + x[1..] == Init(r') + [Last(r') + y] + ys
  {
    var x := Init(r) + [Last(r) + y] + ys;
    var r' := [[c] + r[0]] + r[1..];
    if |r| == 1 {
      assert x == [r[0] + y] + ys;
      assert [c] + (r[0] + y) == ([c] + r[0]) + y;
    } else {
      assert x[0] == r[0];
      assert x[1..] == Init(r)[1..] + [Last(r) + y] + ys;
      assert Init(r') == [[c] + r[0]] + Init(r)[1..];
    }
  }

  // ---------------------------------------------------------------------
  // Chunked input

  /** The chunks run together. */
  function Concat(chunks: seq<string>): string {
    if |chunks| == 0 then "" else chunks[0] + Concat(chunks[1..])
  }

  /** Each chunk split on its own, the pieces of all chunks in order. */
  function ChunkLines(chunks: seq<string>): seq<string> {
    if |chunks| == 0 then [] else Split(chunks[0]) + ChunkLines(chunks[1..])
  }

  /**
   * Splitting with a carry-over buffer: the complete lines of
   * `buffer + chunk` are released, and the unfinished last piece becomes
   * the next buffer. Gives the released lines and the final buffer.
   */
  function Feed(buffer: string, chunks: seq<string>): (r: (string, seq<string>))
    ensures AllLines(r.1)
    ensures |chunks| > 0 || NoNewline(buffer) ==> NoNewline(r.0)
    ensures |chunks| == 0 ==> r == (buffer, [])
    decreases |chunks|
  {
    if |chunks| == 0 then (buffer, [])
    else
      var parts := Split(buffer + chunks[0]);
      var (rest, lines) := Feed(Last(parts), chunks[1..]);
      (rest, Init(parts) + lines)
  }

  /** The complete lines of `s`: every piece but the unfinished last one. */
  function CompleteLines(s: string): seq<string> {
    Init(Split(s))
  }

  /** Splitting a buffer (which has no newline) and a chunk. */
  lemma BufferSplit(buffer: string, chunk: string)
    requires NoNewline(buffer)
    ensures Split(buffer + chunk) == [buffer + Split(chunk)[0]] + Split(chunk)[1..]
  {
    SplitAppend(buffer, chunk);
    SplitSingle(buffer);
  }

  /** What is carried over from `x` continues into whatever follows. */
  lemma SplitCarry(x: string, rest: string)
    ensures Split(x + rest) == Init(Split(x)) + Split(Last(Split(x)) + rest)
  {
    var parts := Split(x);
    SplitAppend(x, rest);
    BufferSplit(Last(parts), rest);
  }

  lemma InitLastAppend<T>(p: seq<T>, q: seq<T>)
    requires |q| > 0
    ensures Last(p + q) == Last(q) && Init(p + q) == p + Init(q)
  {
  }

  /**
   * The buffered lines do not depend on how the text was cut into chunks:
   * they are the complete lines of the whole text, and the final buffer is
   * its unfinished last piece.
   */
  lemma {:induction false} FeedIsChunkingIndependent(buffer: string, chunks: seq<string>)
    requires NoNewline(buffer)
    ensures Feed(buffer, chunks) == (Last(Split(buffer + Concat(chunks))), CompleteLines(buffer + Concat(chunks)))
    decreases |chunks|
  {
    if |chunks| == 0 {
      SplitSingle(buffer);
      assert buffer + "" == buffer;
    } else {
      var c, cs := chunks[0], chunks[1..];
      var parts := Split(buffer + c);
      var b' := Last(parts);
      FeedIsChunkingIndependent(b', cs);
      var rest := Concat(cs);
      assert buffer + Concat(chunks) == (buffer + c) + rest;
      SplitCarry(buffer + c, rest);
      InitLastAppend(Init(parts), Split(b' + rest));
    }
  }

  /** The pieces that are not empty, in order. */
  function NonEmpty(ls: seq<string>): (r: seq<string>)
    ensures forall i :: 0 <= i < |r| ==> r[i] != ""
    ensures forall x :: x in r <==> x in ls && x != ""
  {
    if |ls| == 0 then []
    else if ls[0] == "" then NonEmpty(ls[1..])
    else [ls[0]] + NonEmpty(ls[1..])
  }

  lemma {:induction false} NonEmptyAppend(a: seq<string>, b: seq<string>)
    ensures NonEmpty(a + b) == NonEmpty(a) + NonEmpty(b)
    decreases |a|
  {
    if |a| == 0 {
      assert a + b == b;
    } else {
      assert (a + b)[0] == a[0];
      assert (a + b)[1..] == a[1..] + b;
      NonEmptyAppend(a[1..], b);
    }
  }

  /** A chunk that ends in a newline splits into its lines and one empty piece. */
  lemma EndsInNewline(c: string)
    requires |c| > 0 && Last(c) == '\n'
    ensures Last(Split(c)) == ""
    ensures Split(c) == Init(Split(c)) + [""]
  {
    var a := c[..|c| - 1];
    assert a + "\n" == c;
    SplitAppend(a, "\n");
    assert Split("\n") == [""] + Split("");
  }

  /**
   * When every chunk ends with a newline, nothing is ever carried over, and
   * per-chunk splitting yields the same lines as buffered splitting except
   * for one extra empty piece per chunk.
   */
  lemma {:induction false} FeedAgreesOnWholeLines(chunks: seq<string>)
    requires forall i :: 0 <= i < |chunks| ==> |chunks[i]| > 0 && Last(chunks[i]) == '\n'
    ensures Feed("", chunks).0 == ""
    ensures NonEmpty(Feed("", chunks).1) == NonEmpty(ChunkLines(chunks))
    decreases |chunks|
  {
    if |chunks| > 0 {
      var c := chunks[0];
      assert "" + c == c;
      var parts := Split(c);
      EndsInNewline(c);
      FeedAgreesOnWholeLines(chunks[1..]);
      var later := Feed("", chunks[1..]).1;
      NonEmptyAppend(Init(parts), later);
      NonEmptyAppend(parts, ChunkLines(chunks[1..]));
      NonEmptyAppend(Init(parts), [""]);
    }
  }
}
