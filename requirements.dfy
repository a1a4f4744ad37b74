/**
 * `get_requirements` from setup.py: the lines `readlines()` returned from a
 * requirements file, each with its newline characters deleted, and the
 * editable-install entry `-e .` taken out once.
 */
module Requirements {
  import opened Wrappers
  import PyList

  /** The entry `pip install -e .` writes into a requirements file. */
  const HyphenEDot: string := "-e ."

  /** `line.replace("\n", "")`: every newline character deleted. */
  function StripNewlines(line: string): (r: string)
    ensures '\n' !in r
    ensures multiset(r) == multiset(line)['\n' := 0]
    ensures '\n' !in line ==> r == line
  {
    if line == [] then []
    else
      assert line == [line[0]] + line[1..];
      if line[0] == '\n' then StripNewlines(line[1..])
      else [line[0]] + StripNewlines(line[1..])
  }

  /**
   * Stripping works piece by piece, so with StripNewlines("\n") == "" and
   * StripNewlines([c]) == [c] for every other c it is determined entirely:
   * the other characters survive, in their order.
   */
  lemma {:induction false} StripNewlinesAppend(a: string, b: string)
    ensures StripNewlines(a + b) == StripNewlines(a) + StripNewlines(b)
  {
    if a == [] {
      assert a + b == b;
    } else {
      assert (a + b)[0] == a[0];
      assert (a + b)[1..] == a[1..] + b;
      StripNewlinesAppend(a[1..], b);
    }
  }

  /** The list comprehension of line 14: one stripped entry per line, in order. */
  function StripLines(lines: seq<string>): (r: seq<string>)
    ensures |r| == |lines|
    ensures forall i :: 0 <= i < |lines| ==> r[i] == StripNewlines(lines[i])
  {
    if lines == [] then []
    else [StripNewlines(lines[0])] + StripLines(lines[1..])
  }

  /** What `get_requirements` returns for the lines of the file. */
  function RequirementsOf(lines: seq<string>): (r: seq<string>)
    ensures forall i :: 0 <= i < |r| ==> '\n' !in r[i]
  {
    var stripped := StripLines(lines);
    if HyphenEDot in stripped then
      var removed := PyList.RemoveFirst(stripped, HyphenEDot);
      assert removed.Some?;
      RemoveFirstNoNewline(stripped);
      removed.value
    else stripped
  }

  /** Taking an entry out of newline-free entries leaves newline-free entries. */
  lemma RemoveFirstNoNewline(stripped: seq<string>)
    requires HyphenEDot in stripped
    requires forall i :: 0 <= i < |stripped| ==> '\n' !in stripped[i]
    ensures PyList.RemoveFirst(stripped, HyphenEDot).Some?
    ensures var r := PyList.RemoveFirst(stripped, HyphenEDot).value;
            forall i :: 0 <= i < |r| ==> '\n' !in r[i]
  {
    var r := PyList.RemoveFirst(stripped, HyphenEDot).value;
    forall i | 0 <= i < |r| ensures '\n' !in r[i] {
      PyList.RemoveFirstAt(stripped, HyphenEDot, i);
    }
  }

  /** Lines 11-19 once the file has been read into `lines`. */
  method GetRequirements(lines: seq<string>) returns (requirements: seq<string>)
    ensures requirements == RequirementsOf(lines)
  {
    requirements := StripLines(lines);
    if HyphenEDot in requirements {
      var removed := PyList.Remove(requirements, HyphenEDot);
      requirements := removed.value;
    }
  }

  /**
   * With `-e .` among the stripped lines, the result is one shorter: the
   * first such entry, at position k, is gone; entries before it are the
   * stripped lines at the same position and entries after it the stripped
   * lines one position further on, so the input order is kept.
   */
  lemma MarkerPresent(lines: seq<string>)
    requires HyphenEDot in StripLines(lines)
    ensures var r := RequirementsOf(lines);
            var k := PyList.IndexOf(StripLines(lines), HyphenEDot).value;
            && |r| == |lines| - 1
            && StripNewlines(lines[k]) == HyphenEDot
            && (forall i :: 0 <= i < k ==> StripNewlines(lines[i]) != HyphenEDot)
            && (forall i :: 0 <= i < k ==> r[i] == StripNewlines(lines[i]))
            && (forall i :: k <= i < |r| ==> r[i] == StripNewlines(lines[i + 1]))
  {
    var stripped := StripLines(lines);
    var r := RequirementsOf(lines);
    var k := PyList.IndexOf(stripped, HyphenEDot).value;
    assert r == PyList.RemoveFirst(stripped, HyphenEDot).value;
    forall i | 0 <= i < k ensures r[i] == StripNewlines(lines[i]) {
      PyList.RemoveFirstAt(stripped, HyphenEDot, i);
    }
    forall i | k <= i < |r| ensures r[i] == StripNewlines(lines[i + 1]) {
      PyList.RemoveFirstAt(stripped, HyphenEDot, i);
    }
  }

  /**
   * Only one `-e .` goes: the result holds exactly the stripped lines less
   * one copy of `-e .`, so a second `-e .` in the file is returned.
   */
  lemma MarkerRemovedOnce(lines: seq<string>)
    requires HyphenEDot in StripLines(lines)
    ensures multiset(RequirementsOf(lines)) == multiset(StripLines(lines)) - multiset{HyphenEDot}
    ensures multiset(RequirementsOf(lines))[HyphenEDot] == multiset(StripLines(lines))[HyphenEDot] - 1
  {
    PyList.RemoveFirstMultiset(StripLines(lines), HyphenEDot);
  }

  /** Without `-e .`, the result is the stripped lines, one per input line. */
  lemma MarkerAbsent(lines: seq<string>)
    requires HyphenEDot !in StripLines(lines)
    ensures RequirementsOf(lines) == StripLines(lines)
    ensures |RequirementsOf(lines)| == |lines|
    ensures forall i :: 0 <= i < |lines| ==> RequirementsOf(lines)[i] == StripNewlines(lines[i])
  {
  }

  /**
   * Nothing but the one `-e .` is dropped: every stripped line that is not
   * `-e .` is returned, blank lines included as empty strings.
   */
  lemma NothingElseDropped(lines: seq<string>, i: nat)
    requires i < |lines| && StripNewlines(lines[i]) != HyphenEDot
    ensures StripNewlines(lines[i]) in RequirementsOf(lines)
  {
    var stripped := StripLines(lines);
    var line := stripped[i];
    if HyphenEDot in stripped {
      MarkerRemovedOnce(lines);
      assert line in multiset(stripped);
      assert line in multiset(RequirementsOf(lines));
    } else {
      MarkerAbsent(lines);
    }
  }

  /** A blank line of the file, "\n", survives as "". */
  lemma BlankLinesSurvive(lines: seq<string>, i: nat)
    requires i < |lines| && lines[i] == "\n"
    ensures "" in RequirementsOf(lines)
  {
    assert StripNewlines(lines[i]) == "" by {
      assert lines[i][1..] == [];
    }
    NothingElseDropped(lines, i);
  }
}
