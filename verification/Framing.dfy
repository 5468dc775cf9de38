/** Cutting a sequence at a separator: bytes into lines, text into fields. */
module Framing {
  type Byte = n: int | 0 <= n < 256

  /** The complete pieces, without their separators, and what is left after the last one. */
  datatype Cut<T> = Cut(lines: seq<seq<T>>, rest: seq<T>)

  ghost predicate Free<T>(s: seq<T>, sep: T) {
    forall k :: 0 <= k < |s| ==> s[k] != sep
  }

  ghost predicate AllFree<T>(lines: seq<seq<T>>, sep: T) {
    forall i :: 0 <= i < |lines| ==> Free(lines[i], sep)
  }

  function Find<T(==)>(s: seq<T>, sep: T): (i: nat)
    ensures i <= |s| && forall k :: 0 <= k < i ==> s[k] != sep
    ensures i < |s| ==> s[i] == sep
  {
    if s == [] || s[0] == sep then 0 else 1 + Find(s[1..], sep)
  }

  function CutLines<T(==)>(s: seq<T>, sep: T): Cut<T> {
    var i := Find(s, sep);
    if i == |s| then Cut([], s)
    else
      var later := CutLines(s[i + 1..], sep);
      Cut([s[..i]] + later.lines, later.rest)
  }

  function Joined<T>(lines: seq<seq<T>>, sep: T): seq<T> {
    if lines == [] then [] else lines[0] + [sep] + Joined(lines[1..], sep)
  }

  lemma OneCut<T>(s: seq<T>, sep: T, i: nat)
    requires i < |s| && s[i] == sep
    ensures s == s[..i] + [sep] + s[i + 1..]
  {
  }

  /** Cutting loses nothing: the lines and the rest put together again are the original. */
  lemma {:induction false} CutKeepsAll<T>(s: seq<T>, sep: T)
    ensures Joined(CutLines(s, sep).lines, sep) + CutLines(s, sep).rest == s
    ensures AllFree(CutLines(s, sep).lines, sep) && Free(CutLines(s, sep).rest, sep)
  {
    var i := Find(s, sep);
    if i < |s| {
      var tail := s[i + 1..];
      var later := CutLines(tail, sep);
      CutKeepsAll(tail, sep);
      OneCut(s, sep, i);
      var cut := CutLines(s, sep);
      assert cut.lines[1..] == later.lines;
      assert Joined(cut.lines, sep) == s[..i] + [sep] + Joined(later.lines, sep);
      Associates(s[..i] + [sep], Joined(later.lines, sep), later.rest);
      hide Joined, CutLines;
    } else {
      assert s[..i] == s;
    }
  }

  lemma Associates<T>(a: seq<T>, b: seq<T>, c: seq<T>)
    ensures (a + b) + c == a + (b + c)
  {
  }

  lemma FindIn<T>(line: seq<T>, sep: T, more: seq<T>)
    requires Free(line, sep)
    ensures Find(line + [sep] + more, sep) == |line|
  {
    var s := line + [sep] + more;
    assert s[|line|] == sep;
    assert forall k :: 0 <= k < |line| ==> s[k] == line[k];
  }

  /** And there is no other way to cut it. */
  lemma {:induction false} CutIsUnique<T>(lines: seq<seq<T>>, rest: seq<T>, sep: T)
    requires AllFree(lines, sep) && Free(rest, sep)
    ensures CutLines(Joined(lines, sep) + rest, sep) == Cut(lines, rest)
  {
    if lines == [] {
      assert Joined(lines, sep) + rest == rest;
      var i := Find(rest, sep);
    } else {
      var head, later := lines[0], Joined(lines[1..], sep) + rest;
      Associates(head + [sep], Joined(lines[1..], sep), rest);
      CutIsUnique(lines[1..], rest, sep);
      hide Joined;
      FindIn(head, sep, later);
      HeadOff(head, sep, later);
    }
  }

  lemma HeadOff<T>(head: seq<T>, sep: T, later: seq<T>)
    ensures var s := head + [sep] + later; s[..|head|] == head && s[|head| + 1..] == later && s[|head|] == sep
  {
  }

  lemma {:induction false} JoinedAppend<T>(a: seq<seq<T>>, b: seq<seq<T>>, sep: T)
    ensures Joined(a + b, sep) == Joined(a, sep) + Joined(b, sep)
  {
    if a == [] {
      assert a + b == b;
    } else {
      assert (a + b)[1..] == a[1..] + b;
      JoinedAppend(a[1..], b, sep);
      Associates(a[0] + [sep], Joined(a[1..], sep), Joined(b, sep));
    }
  }

  /** Cutting what has arrived and going on from the rest is cutting everything at once. */
  lemma CutInTwo<T>(a: seq<T>, b: seq<T>, sep: T)
    ensures var later := CutLines(CutLines(a, sep).rest + b, sep);
            CutLines(a + b, sep) == Cut(CutLines(a, sep).lines + later.lines, later.rest)
  {
    var first := CutLines(a, sep);
    var later := CutLines(first.rest + b, sep);
    CutKeepsAll(a, sep);
    CutKeepsAll(first.rest + b, sep);
    hide CutLines, Joined;
    JoinedAppend(first.lines, later.lines, sep);
    Associates(Joined(first.lines, sep), first.rest, b);
    Associates(Joined(first.lines, sep), Joined(later.lines, sep), later.rest);
    assert AllFree(first.lines + later.lines, sep);
    CutIsUnique(first.lines + later.lines, later.rest, sep);
  }

  /**
   Lines on the wire, seen through a buffer and an arbitrary next chunk: the reader finds a prefix of them, and
   what it keeps, with what is still to come, is exactly the others.
   */
  lemma ChunkDeliversPrefix<T>(inflight: seq<seq<T>>, buffer: seq<T>, chunk: seq<T>, coming: seq<T>, sep: T)
    requires AllFree(inflight, sep) && buffer + chunk + coming == Joined(inflight, sep)
    ensures var cut := CutLines(buffer + chunk, sep);
            && cut.lines <= inflight
            && cut.rest + coming == Joined(inflight[|cut.lines|..], sep)
  {
    var cut := CutLines(buffer + chunk, sep);
    var later := CutLines(cut.rest + coming, sep);
    CutInTwo(buffer + chunk, coming, sep);
    CutIsUnique(inflight, [], sep);
    hide CutLines;
    assert Joined(inflight, sep) + [] == Joined(inflight, sep);
    assert inflight == cut.lines + later.lines && later.rest == [];
    assert inflight[|cut.lines|..] == later.lines;
    CutKeepsAll(cut.rest + coming, sep);
    assert Joined(later.lines, sep) + [] == Joined(later.lines, sep);
  }
}
