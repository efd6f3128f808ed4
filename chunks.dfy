/** Splitting a sequence at separator elements. Both the text parser's
    printable-run scan and its line splitter are instances: the first cuts
    bytes at every non-printable byte, the second cuts characters at CR, LF
    and NUL. `Split` keeps empty pieces (one piece more than there are
    separators); `NonEmpty` drops them, as `StringSplitOptions.RemoveEmptyEntries`
    does. */
module Chunks {

  /** The pieces of `s` between separators, with `cur` as the beginning of the
      first piece. Every separator closes the current piece. */
  function SplitFrom<T>(cur: seq<T>, s: seq<T>, isSep: T -> bool): (pieces: seq<seq<T>>)
    ensures |pieces| >= 1
    decreases |s|
  {
    if |s| == 0 then [cur]
    else if isSep(s[0]) then [cur] + SplitFrom([], s[1..], isSep)
    else SplitFrom(cur + [s[0]], s[1..], isSep)
  }

  function Split<T>(s: seq<T>, isSep: T -> bool): seq<seq<T>> {
    SplitFrom([], s, isSep)
  }

  /** The separators of `s`, in order. */
  function Separators<T>(s: seq<T>, isSep: T -> bool): seq<T> {
    if |s| == 0 then []
    else (if isSep(s[0]) then [s[0]] else []) + Separators(s[1..], isSep)
  }

  /** The elements of `s` that are not separators, in order. */
  function Kept<T>(s: seq<T>, isSep: T -> bool): seq<T> {
    if |s| == 0 then []
    else (if isSep(s[0]) then [] else [s[0]]) + Kept(s[1..], isSep)
  }

  /** Pieces glued back together with one separator between neighbours. */
  function Interleave<T>(pieces: seq<seq<T>>, seps: seq<T>): seq<T>
    requires |pieces| == |seps| + 1
  {
    if |seps| == 0 then pieces[0]
    else pieces[0] + [seps[0]] + Interleave(pieces[1..], seps[1..])
  }

  function Flatten<T>(pieces: seq<seq<T>>): seq<T> {
    if |pieces| == 0 then [] else pieces[0] + Flatten(pieces[1..])
  }

  /** The pieces that are not empty, in order. */
  function NonEmpty<T>(pieces: seq<seq<T>>): (r: seq<seq<T>>)
    ensures |r| <= |pieces|
    ensures forall i :: 0 <= i < |r| ==> |r[i]| > 0
    ensures forall p :: p in r ==> p in pieces
  {
    if |pieces| == 0 then []
    else (if |pieces[0]| == 0 then [] else [pieces[0]]) + NonEmpty(pieces[1..])
  }

  /** No element of any piece is a separator. */
  ghost predicate Clean<T>(pieces: seq<seq<T>>, isSep: T -> bool) {
    forall i, j :: 0 <= i < |pieces| && 0 <= j < |pieces[i]| ==> !isSep(pieces[i][j])
  }

  ghost predicate AllSeparators<T>(seps: seq<T>, isSep: T -> bool) {
    forall i :: 0 <= i < |seps| ==> isSep(seps[i])
  }

  lemma {:induction false} SeparatorsAreSeparators<T>(s: seq<T>, isSep: T -> bool)
    ensures AllSeparators(Separators(s, isSep), isSep)
    ensures |Separators(s, isSep)| <= |s|
  {
    if |s| > 0 {
      SeparatorsAreSeparators(s[1..], isSep);
    }
  }

  lemma {:induction false} SplitFromClean<T>(cur: seq<T>, s: seq<T>, isSep: T -> bool)
    requires forall j :: 0 <= j < |cur| ==> !isSep(cur[j])
    ensures Clean(SplitFrom(cur, s, isSep), isSep)
    decreases |s|
  {
    if |s| > 0 {
      if isSep(s[0]) {
        SplitFromClean([], s[1..], isSep);
      } else {
        SplitFromClean(cur + [s[0]], s[1..], isSep);
      }
    }
  }

  /** Cutting at separators and gluing back with the same separators gives
      the input back; there is one more piece than there are separators. */
  lemma {:induction false} SplitFromRoundTrip<T>(cur: seq<T>, s: seq<T>, isSep: T -> bool)
    ensures |SplitFrom(cur, s, isSep)| == |Separators(s, isSep)| + 1
    ensures Interleave(SplitFrom(cur, s, isSep), Separators(s, isSep)) == cur + s
    decreases |s|
  {
    if |s| > 0 {
      if isSep(s[0]) {
        SplitFromRoundTrip([], s[1..], isSep);
        var rest := SplitFrom([], s[1..], isSep);
        var pieces := [cur] + rest;
        var seps := [s[0]] + Separators(s[1..], isSep);
        assert pieces[1..] == rest && seps[1..] == Separators(s[1..], isSep);
        assert Interleave(pieces, seps) == cur + [s[0]] + s[1..];
        assert s == [s[0]] + s[1..];
      } else {
        SplitFromRoundTrip(cur + [s[0]], s[1..], isSep);
        assert Separators(s, isSep) == [] + Separators(s[1..], isSep) == Separators(s[1..], isSep);
        assert cur + [s[0]] + s[1..] == cur + s;
      }
    }
  }

  lemma SplitRoundTrip<T>(s: seq<T>, isSep: T -> bool)
    ensures |Split(s, isSep)| == |Separators(s, isSep)| + 1
    ensures Interleave(Split(s, isSep), Separators(s, isSep)) == s
    ensures Clean(Split(s, isSep), isSep)
  {
    SplitFromRoundTrip([], s, isSep);
    SplitFromClean([], s, isSep);
  }

  lemma {:induction false} SeparatorsAppend<T>(a: seq<T>, b: seq<T>, isSep: T -> bool)
    ensures Separators(a + b, isSep) == Separators(a, isSep) + Separators(b, isSep)
  {
    if |a| > 0 {
      assert (a + b)[0] == a[0];
      assert (a + b)[1..] == a[1..] + b;
      SeparatorsAppend(a[1..], b, isSep);
      var h := if isSep(a[0]) then [a[0]] else [];
      assert Separators(a + b, isSep) == h + (Separators(a[1..], isSep) + Separators(b, isSep));
    } else {
      assert a + b == b;
    }
  }

  lemma {:induction false} SeparatorsOfClean<T>(p: seq<T>, isSep: T -> bool)
    requires forall j :: 0 <= j < |p| ==> !isSep(p[j])
    ensures Separators(p, isSep) == []
  {
    if |p| > 0 {
      SeparatorsOfClean(p[1..], isSep);
    }
  }

  /** A run free of separators just extends the current piece. */
  lemma {:induction false} SplitFromAbsorbs<T>(cur: seq<T>, p: seq<T>, rest: seq<T>, isSep: T -> bool)
    requires forall j :: 0 <= j < |p| ==> !isSep(p[j])
    ensures SplitFrom(cur, p + rest, isSep) == SplitFrom(cur + p, rest, isSep)
    decreases |p|
  {
    if |p| > 0 {
      assert (p + rest)[0] == p[0];
      assert (p + rest)[1..] == p[1..] + rest;
      SplitFromAbsorbs(cur + [p[0]], p[1..], rest, isSep);
      assert cur + [p[0]] + p[1..] == cur + p;
    } else {
      assert p + rest == rest;
      assert cur + p == cur;
    }
  }

  /** `Split` computes THE decomposition: any way of writing `s` as clean
      pieces glued by separators is the one `Split` and `Separators` give.
      So the pieces are exactly the maximal separator-free runs of `s`. */
  lemma {:induction false} SplitUnique<T>(pieces: seq<seq<T>>, seps: seq<T>, isSep: T -> bool)
    requires |pieces| == |seps| + 1
    requires Clean(pieces, isSep)
    requires AllSeparators(seps, isSep)
    ensures Split(Interleave(pieces, seps), isSep) == pieces
    ensures Separators(Interleave(pieces, seps), isSep) == seps
  {
    var p := pieces[0];
    assert forall j :: 0 <= j < |p| ==> !isSep(p[j]) by {
      forall j | 0 <= j < |p| ensures !isSep(p[j]) {
        assert p[j] == pieces[0][j];
      }
    }
    SeparatorsOfClean(p, isSep);
    if |seps| == 0 {
      SplitFromAbsorbs([], p, [], isSep);
      assert p + [] == p;
    } else {
      var tail := Interleave(pieces[1..], seps[1..]);
      assert Clean(pieces[1..], isSep) by {
        forall i, j | 0 <= i < |pieces[1..]| && 0 <= j < |pieces[1..][i]|
          ensures !isSep(pieces[1..][i][j])
        {
          assert pieces[1..][i] == pieces[i + 1];
        }
      }
      assert AllSeparators(seps[1..], isSep) by {
        forall i | 0 <= i < |seps[1..]| ensures isSep(seps[1..][i]) {
          assert seps[1..][i] == seps[i + 1];
        }
      }
      SplitUnique(pieces[1..], seps[1..], isSep);
      var rest := [seps[0]] + tail;
      assert Interleave(pieces, seps) == p + rest;
      SplitFromAbsorbs([], p, rest, isSep);
      assert rest[0] == seps[0] && isSep(seps[0]);
      assert rest[1..] == tail;
      assert SplitFrom(p, rest, isSep) == [p] + Split(tail, isSep);
      assert [] + p == p;
      assert pieces == [p] + pieces[1..];
      SeparatorsAppend(p, rest, isSep);
      assert Separators(rest, isSep) == [seps[0]] + Separators(tail, isSep);
      assert seps == [seps[0]] + seps[1..];
    }
  }

  /** Gluing the pieces without their separators leaves exactly the
      non-separator elements. */
  lemma {:induction false} SplitFromFlatten<T>(cur: seq<T>, s: seq<T>, isSep: T -> bool)
    ensures Flatten(SplitFrom(cur, s, isSep)) == cur + Kept(s, isSep)
    decreases |s|
  {
    if |s| > 0 {
      if isSep(s[0]) {
        SplitFromFlatten([], s[1..], isSep);
        var rest := SplitFrom([], s[1..], isSep);
        assert ([cur] + rest)[1..] == rest;
        assert [] + Kept(s[1..], isSep) == Kept(s[1..], isSep);
      } else {
        SplitFromFlatten(cur + [s[0]], s[1..], isSep);
        assert cur + [s[0]] + Kept(s[1..], isSep) == cur + ([s[0]] + Kept(s[1..], isSep));
      }
    } else {
      assert [cur][1..] == [];
      assert cur + [] == cur;
    }
  }

  lemma {:induction false} FlattenNonEmpty<T>(pieces: seq<seq<T>>)
    ensures Flatten(NonEmpty(pieces)) == Flatten(pieces)
  {
    if |pieces| > 0 {
      FlattenNonEmpty(pieces[1..]);
      var head := if |pieces[0]| == 0 then [] else [pieces[0]];
      FlattenAppend(head, NonEmpty(pieces[1..]));
      if |pieces[0]| == 0 {
        assert pieces[0] == [];
      } else {
        assert [pieces[0]][1..] == [];
      }
    }
  }

  lemma {:induction false} FlattenAppend<T>(a: seq<seq<T>>, b: seq<seq<T>>)
    ensures Flatten(a + b) == Flatten(a) + Flatten(b)
  {
    if |a| > 0 {
      assert (a + b)[1..] == a[1..] + b;
      FlattenAppend(a[1..], b);
    } else {
      assert a + b == b;
    }
  }

  lemma {:induction false} InterleaveAppend<T>(pieces: seq<seq<T>>, seps: seq<T>, x: T)
    requires |pieces| == |seps| + 1
    ensures Interleave(pieces + [[]], seps + [x]) == Interleave(pieces, seps) + [x]
  {
    var ps := pieces + [[]];
    var ss := seps + [x];
    if |seps| == 0 {
      assert ps[1..] == [[]] && ss[1..] == [];
      assert pieces[0] + [x] + [] == pieces[0] + [x];
    } else {
      assert ps[1..] == pieces[1..] + [[]];
      assert ss[1..] == seps[1..] + [x];
      InterleaveAppend(pieces[1..], seps[1..], x);
    }
  }

  /** A separator at the very end closes the last piece and opens an empty one. */
  lemma SplitSeparatorAtEnd<T>(s: seq<T>, x: T, isSep: T -> bool)
    requires isSep(x)
    ensures Split(s + [x], isSep) == Split(s, isSep) + [[]]
  {
    var pieces, seps := Split(s, isSep), Separators(s, isSep);
    SplitRoundTrip(s, isSep);
    SeparatorsAreSeparators(s, isSep);
    InterleaveAppend(pieces, seps, x);
    assert Clean(pieces + [[]], isSep) by {
      forall i, j | 0 <= i < |pieces + [[]]| && 0 <= j < |(pieces + [[]])[i]|
        ensures !isSep((pieces + [[]])[i][j])
      {
        assert i < |pieces|;
        assert (pieces + [[]])[i] == pieces[i];
      }
    }
    SplitUnique(pieces + [[]], seps + [x], isSep);
  }
}
