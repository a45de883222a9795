/** The FASTA writers of the tool: `WriteWrapped` cuts a sequence into lines
    of at most `width` characters under a `>name` header, `WriteSeq` writes the
    sequence on a single line.  Go strings are byte strings; here each `char`
    stands for one byte, so lengths and slices count bytes as the Go code does.
    The writers return the text they would hand to the `io.Writer`. */
module Fasta {
  import opened Wrappers

  /** The header line of an entry: '>', the name, a newline. */
  function Header(name: string): string
  {
    ">" + name + "\n"
  }

  /** The body lines of a wrapped sequence: consecutive pieces of `width`
      characters, the last one possibly shorter. */
  function Chunks(s: string, width: nat): seq<string>
    requires width > 0
    decreases |s|
  {
    if |s| == 0 then []
    else if |s| <= width then [s]
    else [s[..width]] + Chunks(s[width..], width)
  }

  /** Concatenation of lines, nothing between them. */
  function Flatten(lines: seq<string>): string
  {
    if |lines| == 0 then [] else lines[0] + Flatten(lines[1..])
  }

  /** Each line followed by one newline. */
  function JoinLines(lines: seq<string>): string
  {
    if |lines| == 0 then [] else lines[0] + "\n" + JoinLines(lines[1..])
  }

  /** Reference definition of the text `WriteWrapped` produces. */
  function Wrapped(name: string, s: string, width: nat): string
    requires width > 0
  {
    Header(name) + JoinLines(Chunks(s, width))
  }

  /** The body the Go loop writes from start index `i` on: it steps `i` by
      `width` and clamps the end of each slice to the sequence length. */
  function BodyFrom(s: string, i: nat, width: nat): string
    requires width > 0
    decreases |s| - i
  {
    if i >= |s| then []
    else
      var end := if i + width > |s| then |s| else i + width;
      s[i..end] + "\n" + BodyFrom(s, i + width, width)
  }

  /** The loop of `WriteWrapped`: header, then one slice and one newline per
      iteration.  The caller guarantees a positive width (the tool passes 80);
      with width 0 the Go loop would not terminate. */
  method WriteWrapped(name: string, s: string, width: nat) returns (out: string)
    requires width > 0
    ensures out == Wrapped(name, s, width)
  {
    out := ">" + name + "\n";
    var i: nat := 0;
    while i < |s|
      invariant out + BodyFrom(s, i, width) == Header(name) + BodyFrom(s, 0, width)
      decreases |s| - i
    {
      var end := i + width;
      if end > |s| {
        end := |s|;
      }
      out := out + s[i..end];
      out := out + "\n";
      i := i + width;
    }
    BodyFromIsJoinedChunks(s, 0, width);
  }

  /** The loop's body from index `i` is the joined chunks of the rest. */
  lemma {:induction false} BodyFromIsJoinedChunks(s: string, i: nat, width: nat)
    requires width > 0
    requires i <= |s|
    ensures BodyFrom(s, i, width) == JoinLines(Chunks(s[i..], width))
    decreases |s| - i
  {
    if i < |s| {
      var rest := s[i..];
      if i + width < |s| {
        BodyFromIsJoinedChunks(s, i + width, width);
        assert rest[width..] == s[i + width..];
        assert rest[..width] == s[i..i + width];
      } else {
        assert BodyFrom(s, i + width, width) == [];
        assert s[i..|s|] == rest;
        if i + width == |s| {
          assert rest[width..] == [];
        }
      }
    }
  }

  /** Removing the line breaks gives back the sequence. */
  lemma {:induction false} ChunksFlatten(s: string, width: nat)
    requires width > 0
    ensures Flatten(Chunks(s, width)) == s
    decreases |s|
  {
    if width < |s| {
      ChunksFlatten(s[width..], width);
      assert s == s[..width] + s[width..];
    }
  }

  /** Every line but the last has exactly `width` characters; the last has
      between 1 and `width`. */
  lemma {:induction false} ChunksLengths(s: string, width: nat)
    requires width > 0
    ensures forall k :: 0 <= k < |Chunks(s, width)| - 1 ==> |Chunks(s, width)[k]| == width
    ensures |Chunks(s, width)| > 0 ==>
              1 <= |Chunks(s, width)[|Chunks(s, width)| - 1]| <= width
    decreases |s|
  {
    if width < |s| {
      ChunksLengths(s[width..], width);
      var tail := Chunks(s[width..], width);
      assert Chunks(s, width) == [s[..width]] + tail;
      assert |tail| > 0;
    }
  }

  /** There are ceil(|s| / width) lines; an empty sequence has none. */
  lemma ChunksCount(s: string, width: nat)
    requires width > 0
    ensures |Chunks(s, width)| == (|s| + width - 1) / width
  {
    var c := |Chunks(s, width)|;
    ChunksCover(s, width);
    if c == 0 {
      assert |s| == 0;
      assert (width - 1) / width == 0;
    } else {
      CeilDiv(|s|, width, c);
    }
  }

  /** The lines cover the sequence with less than one line to spare. */
  lemma {:induction false} ChunksCover(s: string, width: nat)
    requires width > 0
    ensures |Chunks(s, width)| == 0 <==> |s| == 0
    ensures (|Chunks(s, width)| - 1) * width < |s| <= |Chunks(s, width)| * width
    decreases |s|
  {
    if width < |s| {
      ChunksCover(s[width..], width);
      var c := |Chunks(s[width..], width)|;
      assert |Chunks(s, width)| == c + 1;
      assert (c + 1) * width == c * width + width;
      assert c * width == (c - 1) * width + width;
    }
  }

  /** Division rounding up, from the bounds on the line count. */
  lemma CeilDiv(n: nat, w: nat, c: nat)
    requires w > 0 && c > 0
    requires (c - 1) * w < n <= c * w
    ensures (n + w - 1) / w == c
  {
    var x := n + w - 1;
    var q := x / w;
    var d := q - c;
    assert x == q * w + x % w;
    assert (c - 1) * w == c * w - w;
    assert d * w == q * w - c * w;
    MulMono(1, d, w);
    MulMono(d, -1, w);
  }

  lemma MulMono(a: int, b: int, w: nat)
    ensures a <= b ==> a * w <= b * w
  {
  }

  /** Every character of every line comes from the sequence. */
  lemma {:induction false} ChunksFromSequence(s: string, width: nat, c: char)
    requires width > 0
    requires c !in s
    ensures forall k :: 0 <= k < |Chunks(s, width)| ==> c !in Chunks(s, width)[k]
    decreases |s|
  {
    if width < |s| {
      ChunksFromSequence(s[width..], width, c);
      assert c !in s[..width] by {
        forall j | 0 <= j < width
          ensures s[..width][j] != c
        {
          assert s[..width][j] == s[j];
        }
      }
      assert Chunks(s, width) == [s[..width]] + Chunks(s[width..], width);
    }
  }

  /** Position of the first `c` in `t`, or |t| when there is none. */
  function IndexOf(t: string, c: char): (k: nat)
    ensures k <= |t|
    ensures k < |t| ==> t[k] == c
    ensures forall j :: 0 <= j < k ==> t[j] != c
  {
    if |t| == 0 then 0
    else if t[0] == c then 0
    else 1 + IndexOf(t[1..], c)
  }

  /** Cuts a text at its newlines; a newline ends a line, a final piece
      without one is a line of its own. */
  function SplitLines(t: string): seq<string>
    decreases |t|
  {
    if |t| == 0 then []
    else
      var k := IndexOf(t, '\n');
      if k == |t| then [t] else [t[..k]] + SplitLines(t[k + 1..])
  }

  /** Reads one entry back: the name from the header, and the body lines
      with their newlines removed. */
  function ParseEntry(t: string): Option<(string, string)>
  {
    if |t| == 0 || t[0] != '>' then None
    else
      var k := IndexOf(t[1..], '\n');
      if k == |t| - 1 then None
      else Some((t[1..k + 1], Flatten(SplitLines(t[k + 2..]))))
  }

  /** Lines without newlines are recovered exactly from their joined text:
      each one is followed by exactly one newline. */
  lemma {:induction false} SplitJoin(lines: seq<string>)
    requires forall k :: 0 <= k < |lines| ==> '\n' !in lines[k]
    ensures SplitLines(JoinLines(lines)) == lines
  {
    if |lines| > 0 {
      var l := lines[0];
      var rest := JoinLines(lines[1..]);
      var t := JoinLines(lines);
      assert t == l + "\n" + rest;
      assert t[|l|] == '\n';
      var k := IndexOf(t, '\n');
      assert k == |l|;
      assert t[..k] == l;
      assert t[k + 1..] == rest;
      SplitJoin(lines[1..]);
    }
  }

  /** The header of a wrapped entry ends at the first newline when the name
      has none. */
  lemma HeaderSplit(name: string, body: string)
    requires '\n' !in name
    ensures var t := Header(name) + body;
            IndexOf(t[1..], '\n') == |name| && t[1..|name| + 1] == name && t[|name| + 2..] == body
  {
    var t := Header(name) + body;
    assert t[1..] == name + "\n" + body;
    assert t[1..][|name|] == '\n';
  }

  /** Shape of the wrapped text: the header, then one newline per line, so it
      always ends with a newline; an empty sequence gives the header alone. */
  lemma WrappedShape(name: string, s: string, width: nat)
    requires width > 0
    ensures var w := Wrapped(name, s, width);
            && w[..|name| + 2] == ">" + name + "\n"
            && w[|w| - 1] == '\n'
            && |w| == |name| + 2 + |s| + |Chunks(s, width)|
            && (|s| == 0 <==> w == Header(name))
  {
    var lines := Chunks(s, width);
    ChunksFlatten(s, width);
    JoinLinesLength(lines);
    JoinLinesEndsWithNewline(lines);
    var w := Wrapped(name, s, width);
    assert w == Header(name) + JoinLines(lines);
    if |s| > 0 {
      assert |lines| > 0;
    }
  }

  lemma {:induction false} JoinLinesLength(lines: seq<string>)
    ensures |JoinLines(lines)| == |Flatten(lines)| + |lines|
  {
    if |lines| > 0 {
      JoinLinesLength(lines[1..]);
    }
  }

  lemma {:induction false} JoinLinesEndsWithNewline(lines: seq<string>)
    ensures |lines| > 0 ==> |JoinLines(lines)| > 0 && JoinLines(lines)[|JoinLines(lines)| - 1] == '\n'
  {
    if |lines| > 1 {
      JoinLinesEndsWithNewline(lines[1..]);
    }
  }

  /** The body lines of the wrapped text, cut at its newlines, are exactly
      the chunks of the sequence. */
  lemma WrappedLines(name: string, s: string, width: nat)
    requires width > 0
    requires '\n' !in s
    ensures var w := Wrapped(name, s, width);
            SplitLines(w[|name| + 2..]) == Chunks(s, width)
  {
    var w := Wrapped(name, s, width);
    assert w[|name| + 2..] == JoinLines(Chunks(s, width));
    ChunksFromSequence(s, width, '\n');
    SplitJoin(Chunks(s, width));
  }

  /** Reading a wrapped entry back gives the name and the sequence. */
  lemma WrappedRoundTrip(name: string, s: string, width: nat)
    requires width > 0
    requires '\n' !in name && '\n' !in s
    ensures ParseEntry(Wrapped(name, s, width)) == Some((name, s))
  {
    HeaderSplit(name, JoinLines(Chunks(s, width)));
    WrappedLines(name, s, width);
    ChunksFlatten(s, width);
  }

  /** The single-line writer: header, the whole sequence, one newline. */
  function WriteSeq(name: string, s: string): (out: string)
    ensures |out| == |name| + |s| + 3
    ensures out[..|name| + 2] == Header(name) && out[|out| - 1] == '\n'
    ensures out[|name| + 2..|out| - 1] == s
  {
    Header(name) + s + "\n"
  }

  /** Reading a single-line entry back gives the name and the sequence. */
  lemma WriteSeqRoundTrip(name: string, s: string)
    requires '\n' !in name && '\n' !in s
    ensures ParseEntry(WriteSeq(name, s)) == Some((name, s))
  {
    var body := JoinLines([s]);
    assert [s][1..] == [];
    assert JoinLines([]) == [];
    assert body == s + "\n" + [];
    assert s + "\n" + [] == s + "\n";
    var t := WriteSeq(name, s);
    assert t == Header(name) + body;
    HeaderSplit(name, body);
    SplitJoin([s]);
    assert SplitLines(t[|name| + 2..]) == [s];
    assert Flatten([s]) == s + Flatten([]);
    assert t[1..|name| + 1] == name;
    assert t[0] == '>';
    assert IndexOf(t[1..], '\n') == |name|;
    assert Flatten(SplitLines(t[|name| + 2..])) == s;
  }

  /** A non-empty sequence that fits on one line is written the same way by
      both writers. */
  lemma WriteSeqAgreesWithWrapped(name: string, s: string, width: nat)
    requires width > 0
    requires 0 < |s| <= width
    ensures WriteSeq(name, s) == Wrapped(name, s, width)
  {
    assert Chunks(s, width) == [s];
    assert JoinLines([s]) == s + "\n";
  }

  /** For an empty sequence the writers differ: the single-line writer still
      emits an empty body line, the wrapping writer emits none. */
  lemma WriteSeqEmptyBody(name: string, width: nat)
    requires width > 0
    ensures WriteSeq(name, []) == Wrapped(name, [], width) + "\n"
  {
  }
}
