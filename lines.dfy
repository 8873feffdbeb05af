/** Python's `"\n".join(lines)` and, as its inverse on lines that hold no
    line break, `text.split("\n")`. */
module Lines {

  predicate NoNewline(s: string) {
    '\n' !in s
  }

  /** `"\n".join(lines)`: the lines with one line feed between neighbours,
      none before the first or after the last. */
  function JoinLines(lines: seq<string>): (r: string)
    decreases |lines|
  {
    if |lines| == 0 then ""
    else if |lines| == 1 then lines[0]
    else lines[0] + "\n" + JoinLines(lines[1..])
  }

  /** `text.split("\n")`: the pieces between line feeds; the empty text is
      one empty piece. */
  function SplitLines(s: string): (r: seq<string>)
    ensures |r| >= 1
    decreases |s|
  {
    if |s| == 0 then [""]
    else if s[0] == '\n' then [""] + SplitLines(s[1..])
    else
      var rest := SplitLines(s[1..]);
      [[s[0]] + rest[0]] + rest[1..]
  }

  /** Text without a line feed is a single piece. */
  lemma {:induction false} SplitSingleLine(a: string)
    requires NoNewline(a)
    ensures SplitLines(a) == [a]
    decreases |a|
  {
    if |a| > 0 {
      assert NoNewline(a[1..]) by {
        assert forall i :: 0 <= i < |a| - 1 ==> a[1..][i] == a[i + 1];
      }
      SplitSingleLine(a[1..]);
      assert [a[0]] + a[1..] == a;
    }
  }

  /** Splitting after a line without line feeds peels that line off. */
  lemma {:induction false} SplitAfterLine(a: string, b: string)
    requires NoNewline(a)
    ensures SplitLines(a + "\n" + b) == [a] + SplitLines(b)
    decreases |a|
  {
    var s := a + "\n" + b;
    if |a| == 0 {
      assert s == "\n" + b;
      assert s[1..] == b;
    } else {
      assert NoNewline(a[1..]) by {
        assert forall i :: 0 <= i < |a| - 1 ==> a[1..][i] == a[i + 1];
      }
      assert s[1..] == a[1..] + "\n" + b;
      SplitAfterLine(a[1..], b);
      assert [a[0]] + a[1..] == a;
    }
  }

  /** Splitting the joined text gives back the lines, provided there is at
      least one line (`"".split("\n")` is `[""]`) and none holds a line feed. */
  lemma {:induction false} SplitJoinLines(lines: seq<string>)
    requires |lines| >= 1
    requires forall i :: 0 <= i < |lines| ==> NoNewline(lines[i])
    ensures SplitLines(JoinLines(lines)) == lines
    decreases |lines|
  {
    if |lines| == 1 {
      SplitSingleLine(lines[0]);
    } else {
      SplitAfterLine(lines[0], JoinLines(lines[1..]));
      SplitJoinLines(lines[1..]);
    }
  }

  /** The joined text starts with the first line. */
  lemma JoinLinesStart(first: string, rest: seq<string>)
    ensures var s := JoinLines([first] + rest);
      |s| >= |first| && s[..|first|] == first
  {
    assert ([first] + rest)[0] == first;
    if |rest| > 0 {
      assert ([first] + rest)[1..] == rest;
    }
  }

  /** A line followed by at least one more is joined to the rest by a line
      feed. */
  lemma JoinLinesCons(first: string, rest: seq<string>)
    requires |rest| > 0
    ensures JoinLines([first] + rest) == first + "\n" + JoinLines(rest)
  {
    assert ([first] + rest)[1..] == rest;
  }

  /** The lines of consecutive blocks, block after block: what repeated
      `append` calls leave in a list. */
  function Concat(blocks: seq<seq<string>>): (r: seq<string>)
    decreases |blocks|
  {
    if blocks == [] then [] else blocks[0] + Concat(blocks[1..])
  }

  /** Appending one more block appends its lines. */
  lemma {:induction false} ConcatSnoc(blocks: seq<seq<string>>, b: seq<string>)
    ensures Concat(blocks + [b]) == Concat(blocks) + b
    decreases |blocks|
  {
    if blocks == [] {
      assert [b][1..] == [];
    } else {
      assert (blocks + [b])[1..] == blocks[1..] + [b];
      ConcatSnoc(blocks[1..], b);
    }
  }

  /** Concatenating two runs of blocks concatenates their lines. */
  lemma {:induction false} ConcatAppend(a: seq<seq<string>>, b: seq<seq<string>>)
    ensures Concat(a + b) == Concat(a) + Concat(b)
    decreases |a|
  {
    if a == [] {
      assert a + b == b;
    } else {
      assert (a + b)[1..] == a[1..] + b;
      ConcatAppend(a[1..], b);
    }
  }

  /** Line j of block k follows the lines of the k blocks before it. */
  lemma ConcatAt(blocks: seq<seq<string>>, k: nat, j: nat)
    requires k < |blocks| && j < |blocks[k]|
    ensures |Concat(blocks[..k])| + j < |Concat(blocks)|
    ensures Concat(blocks)[|Concat(blocks[..k])| + j] == blocks[k][j]
  {
    assert blocks == blocks[..k] + blocks[k..];
    ConcatAppend(blocks[..k], blocks[k..]);
    assert Concat(blocks[k..]) == blocks[k] + Concat(blocks[k + 1..]) by {
      assert blocks[k..][1..] == blocks[k + 1..];
    }
  }

  lemma {:induction false} ConcatLength(blocks: seq<seq<string>>, w: nat)
    requires forall i :: 0 <= i < |blocks| ==> |blocks[i]| == w
    ensures |Concat(blocks)| == w * |blocks|
    decreases |blocks|
  {
    if blocks != [] {
      var rest := blocks[1..];
      assert forall i :: 0 <= i < |rest| ==> |rest[i]| == w by {
        assert forall i :: 0 <= i < |rest| ==> rest[i] == blocks[i + 1];
      }
      ConcatLength(rest, w);
      assert w * |blocks| == w + w * |rest|;
    }
  }
}
