/** Leftmost search and splitting, as Python's find and split do it. */
module Splitting {
  import opened Prelude

  ghost predicate At<T>(s: seq<T>, sep: seq<T>, i: nat)
  {
    i + |sep| <= |s| && s[i..i + |sep|] == sep
  }

  function FindFrom<T(==)>(s: seq<T>, sep: seq<T>, from: nat): (r: Option<nat>)
    ensures r.Some? ==> from <= r.value <= |s| - |sep|
    decreases |s| - from
  {
    if from + |sep| > |s| then None
    else if s[from..from + |sep|] == sep then Some(from)
    else FindFrom(s, sep, from + 1)
  }

  /** The first occurrence. */
  function Find<T(==)>(s: seq<T>, sep: seq<T>): (r: Option<nat>)
    ensures r.Some? ==> r.value + |sep| <= |s|
  {
    FindFrom(s, sep, 0)
  }

  lemma {:induction false} FindFromIsFirst<T>(s: seq<T>, sep: seq<T>, from: nat)
    ensures match FindFrom(s, sep, from)
            case Some(i) => At(s, sep, i) && forall j :: from <= j < i ==> !At(s, sep, j)
            case None => forall j :: from <= j ==> !At(s, sep, j)
    decreases |s| - from
  {
    if from + |sep| <= |s| && s[from..from + |sep|] != sep {
      FindFromIsFirst(s, sep, from + 1);
    }
  }

  lemma FindIsFirst<T>(s: seq<T>, sep: seq<T>)
    ensures match Find(s, sep)
            case Some(i) => At(s, sep, i) && forall j :: 0 <= j < i ==> !At(s, sep, j)
            case None => forall j :: 0 <= j ==> !At(s, sep, j)
  {
    FindFromIsFirst(s, sep, 0);
  }

  /** s.split(sep): never empty; the separator occurs in no part. */
  function Split<T(==)>(s: seq<T>, sep: seq<T>): (parts: seq<seq<T>>)
    requires sep != []
    ensures parts != []
    decreases |s|
  {
    match Find(s, sep)
    case None => [s]
    case Some(i) => [s[..i]] + Split(s[i + |sep|..], sep)
  }

  lemma FindIs<T>(s: seq<T>, sep: seq<T>, i: nat)
    requires At(s, sep, i) && forall j :: 0 <= j < i ==> !At(s, sep, j)
    ensures Find(s, sep) == Some(i)
  {
    FindIsFirst(s, sep);
  }

  /** An occurrence inside a prefix is the first one of the whole. */
  lemma FindInPrefix<T>(a: seq<T>, b: seq<T>, sep: seq<T>)
    requires Find(a, sep).Some?
    ensures Find(a + b, sep) == Find(a, sep)
  {
    var i := Find(a, sep).value;
    FindIsFirst(a, sep);
    assert (a + b)[i..i + |sep|] == a[i..i + |sep|];
    forall j | 0 <= j < i ensures !At(a + b, sep, j) {
      assert (a + b)[j..j + |sep|] == a[j..j + |sep|];
      assert !At(a, sep, j);
    }
    FindIs(a + b, sep, i);
  }

  /** A part in front of its separator is the first part, if the separator cannot start earlier. */
  lemma SplitFirst<T>(part: seq<T>, rest: seq<T>, sep: seq<T>)
    requires sep != [] && forall j :: 0 <= j < |part| ==> !At(part + sep, sep, j)
    ensures Split(part + sep + rest, sep) == [part] + Split(rest, sep)
  {
    var s := part + sep + rest;
    assert s[|part|..|part| + |sep|] == sep;
    forall j | 0 <= j < |part| ensures !At(s, sep, j) {
      assert !At(part + sep, sep, j);
      assert s[j..j + |sep|] == (part + sep)[j..j + |sep|];
    }
    FindIs(s, sep, |part|);
    assert s[..|part|] == part && s[|part| + |sep|..] == rest;
  }

  /** A text without the separator is its only part. */
  lemma SplitNone<T>(s: seq<T>, sep: seq<T>)
    requires sep != [] && forall j :: 0 <= j ==> !At(s, sep, j)
    ensures Split(s, sep) == [s]
  {
    FindIsFirst(s, sep);
  }

  /** The parts that a separator closes. */
  function Closed<T(==)>(s: seq<T>, sep: seq<T>): seq<seq<T>>
    requires sep != []
    decreases |s|
  {
    match Find(s, sep)
    case None => []
    case Some(i) => [s[..i]] + Closed(s[i + |sep|..], sep)
  }

  /** What follows the last separator. */
  function Open<T(==)>(s: seq<T>, sep: seq<T>): seq<T>
    requires sep != []
    decreases |s|
  {
    match Find(s, sep)
    case None => s
    case Some(i) => Open(s[i + |sep|..], sep)
  }

  lemma {:induction false} SplitIsClosedAndOpen<T>(s: seq<T>, sep: seq<T>)
    requires sep != []
    ensures Split(s, sep) == Closed(s, sep) + [Open(s, sep)]
    decreases |s|
  {
    match Find(s, sep)
    case None =>
    case Some(i) => SplitIsClosedAndOpen(s[i + |sep|..], sep);
  }

  lemma HeadOfWhole<T>(a: seq<T>, b: seq<T>, sep: seq<T>)
    requires sep != [] && Find(a, sep).Some?
    ensures var i := Find(a, sep).value;
            && Closed(a + b, sep) == [a[..i]] + Closed(a[i + |sep|..] + b, sep)
            && Open(a + b, sep) == Open(a[i + |sep|..] + b, sep)
  {
    var i := Find(a, sep).value;
    FindInPrefix(a, b, sep);
    assert (a + b)[i + |sep|..] == a[i + |sep|..] + b && (a + b)[..i] == a[..i];
  }

  lemma FirstClosed<T>(a: seq<T>, sep: seq<T>, i: nat)
    requires sep != [] && Find(a, sep) == Some(i)
    ensures Closed(a, sep) == [a[..i]] + Closed(a[i + |sep|..], sep) && Open(a, sep) == Open(a[i + |sep|..], sep)
  {
  }

  lemma OpenContinues<T>(a: seq<T>, b: seq<T>, sep: seq<T>)
    requires sep != [] && Find(a, sep).None?
    ensures Closed(a + b, sep) == Closed(a, sep) + Closed(Open(a, sep) + b, sep)
    ensures Open(a + b, sep) == Open(Open(a, sep) + b, sep)
  {
    assert [] + Closed(a + b, sep) == Closed(a + b, sep);
  }

  lemma Prepended<T>(part: seq<T>, parts: seq<seq<T>>, more: seq<seq<T>>, all: seq<seq<T>>, longer: seq<seq<T>>,
                     whole: seq<seq<T>>)
    requires all == parts + more && longer == [part] + parts && whole == [part] + all
    ensures whole == longer + more
  {
  }

  lemma FirstOfBoth<T>(a: seq<T>, b: seq<T>, sep: seq<T>, part: seq<T>, rest: seq<T>)
    requires sep != [] && Find(a, sep).Some?
    requires part == a[..Find(a, sep).value] && rest == a[Find(a, sep).value + |sep|..]
    ensures Closed(a, sep) == [part] + Closed(rest, sep) && Open(a, sep) == Open(rest, sep)
    ensures Closed(a + b, sep) == [part] + Closed(rest + b, sep) && Open(a + b, sep) == Open(rest + b, sep)
  {
    HeadOfWhole(a, b, sep);
    FirstClosed(a, sep, Find(a, sep).value);
  }

  /** Two streams that begin with the same part and go on alike. */
  lemma RestContinues<T>(a: seq<T>, b: seq<T>, sep: seq<T>, part: seq<T>, rest: seq<T>)
    requires sep != []
    requires Closed(a, sep) == [part] + Closed(rest, sep) && Open(a, sep) == Open(rest, sep)
    requires Closed(a + b, sep) == [part] + Closed(rest + b, sep) && Open(a + b, sep) == Open(rest + b, sep)
    requires Closed(rest + b, sep) == Closed(rest, sep) + Closed(Open(rest, sep) + b, sep)
    requires Open(rest + b, sep) == Open(Open(rest, sep) + b, sep)
    ensures Closed(a + b, sep) == Closed(a, sep) + Closed(Open(a, sep) + b, sep)
    ensures Open(a + b, sep) == Open(Open(a, sep) + b, sep)
  {
    Prepended(part, Closed(rest, sep), Closed(Open(rest, sep) + b, sep), Closed(rest + b, sep),
              Closed(a, sep), Closed(a + b, sep));
  }

  /** A stream cut in two pieces anywhere: what the first piece leaves open is continued by the
      second. */
  lemma {:induction false} SplitContinues<T>(a: seq<T>, b: seq<T>, sep: seq<T>)
    requires sep != []
    ensures Closed(a + b, sep) == Closed(a, sep) + Closed(Open(a, sep) + b, sep)
    ensures Open(a + b, sep) == Open(Open(a, sep) + b, sep)
    decreases |a|
  {
    if Find(a, sep).Some? {
      var i := Find(a, sep).value;
      var part, rest := a[..i], a[i + |sep|..];
      SplitContinues(rest, b, sep);
      FirstOfBoth(a, b, sep, part, rest);
      RestContinues(a, b, sep, part, rest);
    } else {
      OpenContinues(a, b, sep);
    }
  }

  /** sep.join(parts) */
  function Join<T>(parts: seq<seq<T>>, sep: seq<T>): seq<T>
  {
    if parts == [] then [] else if |parts| == 1 then parts[0] else parts[0] + sep + Join(parts[1..], sep)
  }

  /** Every part followed by its terminator. */
  function Terminated<T>(parts: seq<seq<T>>, end: seq<T>): seq<T>
  {
    if parts == [] then [] else parts[0] + end + Terminated(parts[1..], end)
  }

  /** The terminator cannot be seen before the part is over. */
  ghost predicate EndsAtItsEnd<T>(part: seq<T>, end: seq<T>)
  {
    Find(part + end, end) == Some(|part|)
  }

  lemma {:induction false} ClosedOfTerminated<T>(parts: seq<seq<T>>, end: seq<T>)
    requires end != [] && forall p :: p in parts ==> EndsAtItsEnd(p, end)
    ensures Closed(Terminated(parts, end), end) == parts
    ensures Open(Terminated(parts, end), end) == []
  {
    if parts != [] {
      var first, rest := parts[0] + end, Terminated(parts[1..], end);
      assert EndsAtItsEnd(parts[0], end);
      HeadOfWhole(first, rest, end);
      assert first[|parts[0]| + |end|..] + rest == rest && first[..|parts[0]|] == parts[0];
      ClosedOfTerminated(parts[1..], end);
    }
  }

  /** Nothing that starts where the separator's first element is missing. */
  lemma NotAt<T>(s: seq<T>, sep: seq<T>, j: nat, k: nat)
    requires k < |sep| && (j + k < |s| ==> s[j + k] != sep[k])
    ensures !At(s, sep, j)
  {
    if j + |sep| <= |s| {
      assert s[j..j + |sep|][k] == s[j + k];
    }
  }

  /** Parts without the separator's first element come back from a join as they were. */
  lemma {:induction false} SplitJoin<T>(parts: seq<seq<T>>, sep: seq<T>)
    requires sep != [] && parts != [] && forall p :: p in parts ==> sep[0] !in p
    ensures Split(Join(parts, sep), sep) == parts
  {
    var first := parts[0];
    assert first in parts;
    if |parts| == 1 {
      forall j: nat ensures !At(first, sep, j) { NotAt(first, sep, j, 0); }
      SplitNone(first, sep);
    } else {
      forall j: nat | j < |first| ensures !At(first + sep, sep, j) { NotAt(first + sep, sep, j, 0); }
      SplitFirst(first, Join(parts[1..], sep), sep);
      SplitJoin(parts[1..], sep);
    }
  }

  /** No double break starts in a line or in the break between it and the next line. */
  lemma NoDoubleBreak<T>(line: seq<T>, br: seq<T>, next: seq<T>, j: nat)
    requires br != [] && br[0] !in line && next != [] && j < |line| + |br|
    requires forall k :: 0 < k < |br| ==> br[k] != br[0]
    requires j == |line| ==> next[0] != br[0]
    ensures !At(line + br + next, br + br, j)
  {
    NotAt(line + br + next, br + br, j, if j == |line| then |br| else 0);
  }

  /** Non-empty lines joined by a line break: the first double break is the one put after them. */
  lemma {:induction false} JoinedEndsAtItsEnd<T>(lines: seq<seq<T>>, br: seq<T>)
    requires br != [] && forall k :: 0 < k < |br| ==> br[k] != br[0]
    requires lines != [] && forall k :: 0 <= k < |lines| ==> lines[k] != [] && br[0] !in lines[k]
    ensures EndsAtItsEnd(Join(lines, br), br + br)
    ensures Join(lines, br) != [] && Join(lines, br)[0] == lines[0][0]
  {
    var line, end, body := lines[0], br + br, Join(lines, br);
    if |lines| == 1 {
      assert body + end == line + br + br;
      forall j | 0 <= j < |line| ensures !At(body + end, end, j) { NoDoubleBreak(line, br, br, j); }
    } else {
      var inner, skip := Join(lines[1..], br) + end, |line| + |br|;
      JoinedEndsAtItsEnd(lines[1..], br);
      assert body + end == line + br + inner;
      FindIsFirst(inner, end);
      forall j | 0 <= j < |body| ensures !At(body + end, end, j) {
        if j < skip {
          NoDoubleBreak(line, br, inner, j);
        } else {
          ShiftAt(line + br, inner, end, j - skip);
        }
      }
    }
    assert (body + end)[|body|..|body| + |end|] == end;
    FindIs(body + end, end, |body|);
  }

  lemma {:induction false} JoinEndsInItsLastLine<T>(lines: seq<seq<T>>, br: seq<T>)
    requires lines != [] && lines[|lines| - 1] != []
    ensures Join(lines, br) != []
    ensures Join(lines, br)[|Join(lines, br)| - 1] == lines[|lines| - 1][|lines[|lines| - 1]| - 1]
  {
    if |lines| > 1 {
      JoinEndsInItsLastLine(lines[1..], br);
    }
  }

  lemma ShiftAt<T>(a: seq<T>, b: seq<T>, sep: seq<T>, j: nat)
    ensures At(a + b, sep, |a| + j) <==> At(b, sep, j)
  {
    if j + |sep| <= |b| {
      assert (a + b)[|a| + j..|a| + j + |sep|] == b[j..j + |sep|];
    }
  }
}
