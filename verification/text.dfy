/** Newline framing of the seed list: URLs written one per line, and the
    reading side that splits such text back into lines. */
module Text {
  import opened Wrappers

  predicate NoNewline(s: string) {
    forall i :: 0 <= i < |s| ==> s[i] != '\n'
  }

  /** Every entry followed by a line break, in the order given. */
  function Join(lines: seq<string>): (s: string)
    ensures |s| >= |lines|
    ensures s == "" <==> lines == []
    ensures lines != [] ==> s[|s| - 1] == '\n'
  {
    if |lines| == 0 then ""
    else lines[0] + "\n" + Join(lines[1..])
  }

  /** Appending one entry appends exactly its line. */
  lemma {:induction false} JoinSnoc(lines: seq<string>, line: string)
    ensures Join(lines + [line]) == Join(lines) + line + "\n"
  {
    if |lines| > 0 {
      assert (lines + [line])[1..] == lines[1..] + [line];
      JoinSnoc(lines[1..], line);
    } else {
      assert lines + [line] == [line];
    }
  }

  /** Position of the first line break, or the length when there is none. */
  function IndexOfNewline(s: string): (i: nat)
    ensures i <= |s|
    ensures forall j :: 0 <= j < i ==> s[j] != '\n'
    ensures i < |s| ==> s[i] == '\n'
  {
    if |s| == 0 then 0
    else if s[0] == '\n' then 0
    else 1 + IndexOfNewline(s[1..])
  }

  /** The lines of a text; a final line without a break is kept. */
  function SplitLines(s: string): (lines: seq<string>)
    ensures forall k :: 0 <= k < |lines| ==> NoNewline(lines[k])
    decreases |s|
  {
    if |s| == 0 then []
    else
      var i := IndexOfNewline(s);
      if i == |s| then [s] else [s[..i]] + SplitLines(s[i + 1..])
  }

  /** Splitting the joined entries gives back the entries, in order. */
  lemma {:induction false} SplitJoin(lines: seq<string>)
    requires forall k :: 0 <= k < |lines| ==> NoNewline(lines[k])
    ensures SplitLines(Join(lines)) == lines
  {
    if |lines| > 0 {
      var s := Join(lines);
      var head := lines[0];
      assert s == head + "\n" + Join(lines[1..]);
      assert s[|head|] == '\n';
      assert forall j :: 0 <= j < |head| ==> s[j] == head[j];
      assert IndexOfNewline(s) == |head|;
      assert s[..|head|] == head;
      assert s[|head| + 1..] == Join(lines[1..]);
      SplitJoin(lines[1..]);
      assert lines == [head] + lines[1..];
    }
  }

  /** Position of the last line break. */
  function LastNewline(s: string): (r: Option<nat>)
    ensures r.None? ==> NoNewline(s)
    ensures r.Some? ==> r.value < |s| && s[r.value] == '\n'
    ensures r.Some? ==> forall j :: r.value < j < |s| ==> s[j] != '\n'
  {
    if |s| == 0 then None
    else if s[|s| - 1] == '\n' then Some(|s| - 1)
    else LastNewline(s[..|s| - 1])
  }

  /** A break followed by break-free text is the last break. */
  lemma LastNewlineBefore(a: string, t: string)
    requires NoNewline(t)
    ensures LastNewline(a + "\n" + t) == Some(|a|)
  {
    var s := a + "\n" + t;
    var r := LastNewline(s);
    assert s[|a|] == '\n';
    assert r.Some?;
    if r.value < |a| {
      assert false;
    } else if r.value > |a| {
      assert false;
    }
  }
}
