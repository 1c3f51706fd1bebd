/** Literal replace-all on strings, with the semantics of Python's `str.replace(old, new)`
    (no count argument): every leftmost, non-overlapping occurrence of the pattern is
    replaced, and an EMPTY pattern matches at every gap between characters, including
    before the first and after the last one (`"ab".replace("", "X") == "XaXbX"`).

    The string is first cut into pieces -- characters that are kept and places where the
    pattern was hit -- and then rendered with a replacement for every hit. The pieces are
    the structured match spans a diff view needs; rendering them with the pattern itself
    gives the original string back. */
module Text {

  /** One piece of a string cut at the occurrences of a pattern. */
  datatype Piece = Kept(c: char) | Hit

  /** `p` occurs in `s` starting at index `i`. */
  predicate OccursAt(s: string, p: string, i: int)
  {
    0 <= i && i + |p| <= |s| && s[i..i + |p|] == p
  }

  /** `p` occurs somewhere in `s` (Python's `p in s`). */
  predicate Occurs(p: string, s: string)
  {
    exists i :: 0 <= i <= |s| && OccursAt(s, p, i)
  }

  predicate StartsWith(s: string, p: string)
  {
    OccursAt(s, p, 0)
  }

  /** Cut `s` at the leftmost non-overlapping occurrences of a non-empty pattern. */
  function Cut(s: string, p: string): seq<Piece>
    requires p != []
    decreases |s|
  {
    if s == [] then []
    else if StartsWith(s, p) then [Hit] + Cut(s[|p|..], p)
    else [Kept(s[0])] + Cut(s[1..], p)
  }

  /** Cut `s` at every gap: the empty pattern occurs before each character and at the end. */
  function CutEveryGap(s: string): seq<Piece>
  {
    if s == [] then [Hit] else [Hit, Kept(s[0])] + CutEveryGap(s[1..])
  }

  /** The match spans of pattern `p` in `s`. */
  function Pieces(s: string, p: string): seq<Piece>
  {
    if p == [] then CutEveryGap(s) else Cut(s, p)
  }

  function Emit(x: Piece, r: string): string
  {
    match x
    case Kept(c) => [c]
    case Hit => r
  }

  /** Write the pieces out, with `r` in place of every hit. */
  function Render(ps: seq<Piece>, r: string): string
  {
    if ps == [] then [] else Emit(ps[0], r) + Render(ps[1..], r)
  }

  /** Python's `s.replace(p, r)`. */
  function ReplaceAll(s: string, p: string, r: string): string
  {
    Render(Pieces(s, p), r)
  }

  lemma RenderCons(x: Piece, rest: seq<Piece>, r: string)
    ensures Render([x] + rest, r) == Emit(x, r) + Render(rest, r)
  {
    assert ([x] + rest)[1..] == rest;
  }

  lemma {:induction false} RenderCutWithPattern(s: string, p: string)
    requires p != []
    ensures Render(Cut(s, p), p) == s
    decreases |s|
  {
    if s != [] {
      if StartsWith(s, p) {
        RenderCutWithPattern(s[|p|..], p);
        RenderCons(Hit, Cut(s[|p|..], p), p);
        assert s == s[..|p|] + s[|p|..];
      } else {
        RenderCutWithPattern(s[1..], p);
        RenderCons(Kept(s[0]), Cut(s[1..], p), p);
        assert s == [s[0]] + s[1..];
      }
    }
  }

  lemma {:induction false} RenderEveryGapWithNothing(s: string)
    ensures Render(CutEveryGap(s), []) == s
  {
    if s == [] {
      RenderCons(Hit, [], []);
    } else {
      RenderEveryGapWithNothing(s[1..]);
      RenderCons(Kept(s[0]), CutEveryGap(s[1..]), []);
      RenderCons(Hit, [Kept(s[0])] + CutEveryGap(s[1..]), []);
      assert [Hit, Kept(s[0])] + CutEveryGap(s[1..]) == [Hit] + ([Kept(s[0])] + CutEveryGap(s[1..]));
      assert s == [s[0]] + s[1..];
    }
  }

  /** Replacing a pattern by itself changes nothing: the match spans together with the
      kept characters cover the original string exactly, for every pattern. */
  lemma ReplaceWithItself(s: string, p: string)
    ensures ReplaceAll(s, p, p) == s
  {
    if p == [] {
      RenderEveryGapWithNothing(s);
    } else {
      RenderCutWithPattern(s, p);
    }
  }

  /** A non-empty pattern that does not occur leaves the string unchanged, whatever
      the replacement. */
  lemma {:induction false} ReplaceAbsent(s: string, p: string, r: string)
    requires p != [] && !Occurs(p, s)
    ensures ReplaceAll(s, p, r) == s
    decreases |s|
  {
    if s != [] {
      assert !StartsWith(s, p);
      assert !Occurs(p, s[1..]) by {
        forall i | OccursAt(s[1..], p, i)
          ensures OccursAt(s, p, i + 1)
        {
          assert s[1..][i..i + |p|] == s[i + 1..i + 1 + |p|];
        }
      }
      ReplaceAbsent(s[1..], p, r);
      RenderCons(Kept(s[0]), Cut(s[1..], p), r);
      assert s == [s[0]] + s[1..];
    }
  }

  /** A pattern that occurs at the very start is always replaced there: the result
      begins with the replacement. */
  lemma ReplaceAtStart(s: string, p: string, r: string)
    requires p != [] && StartsWith(s, p)
    ensures |r| <= |ReplaceAll(s, p, r)| && ReplaceAll(s, p, r)[..|r|] == r
  {
    RenderCons(Hit, Cut(s[|p|..], p), r);
  }

  /** A non-empty pattern that occurs somewhere is hit at least once. */
  lemma {:induction false} PresentHits(s: string, p: string)
    requires p != [] && Occurs(p, s)
    ensures Hit in Cut(s, p)
    decreases |s|
  {
    if !StartsWith(s, p) {
      var i :| 0 <= i <= |s| && OccursAt(s, p, i);
      assert i > 0;
      assert OccursAt(s[1..], p, i - 1) by {
        assert s[1..][i - 1..i - 1 + |p|] == s[i..i + |p|];
      }
      PresentHits(s[1..], p);
      assert Cut(s, p) == [Kept(s[0])] + Cut(s[1..], p);
    }
  }

  /** The first occurrence of `p` in `s`, at `i`, is at `i - 1` in `s[1..]`, and still the first. */
  lemma FirstOccurrenceShift(s: string, p: string, i: nat)
    requires p != [] && i > 0 && OccursAt(s, p, i)
    requires forall j :: 0 <= j < i ==> !OccursAt(s, p, j)
    ensures OccursAt(s[1..], p, i - 1)
    ensures forall j :: 0 <= j < i - 1 ==> !OccursAt(s[1..], p, j)
  {
    assert s[1..][i - 1..i - 1 + |p|] == s[i..i + |p|];
    forall j | 0 <= j < i - 1
      ensures !OccursAt(s[1..], p, j)
    {
      assert !OccursAt(s, p, j + 1);
      if j + |p| <= |s| - 1 {
        assert s[1..][j..j + |p|] == s[j + 1..j + 1 + |p|];
      }
    }
  }

  /** Matching is leftmost: up to the first occurrence of the pattern every character is
      kept, and the first occurrence itself is hit. */
  lemma {:induction false} FirstOccurrenceHit(s: string, p: string, i: nat)
    requires p != [] && OccursAt(s, p, i)
    requires forall j :: 0 <= j < i ==> !OccursAt(s, p, j)
    ensures i < |Cut(s, p)| && Cut(s, p)[i] == Hit
    ensures forall j :: 0 <= j < i ==> Cut(s, p)[j] == Kept(s[j])
    decreases i
  {
    if i > 0 {
      assert !StartsWith(s, p);
      FirstOccurrenceShift(s, p, i);
      FirstOccurrenceHit(s[1..], p, i - 1);
      assert Cut(s, p) == [Kept(s[0])] + Cut(s[1..], p);
    }
  }

  /** A character that does not start an occurrence is copied. */
  lemma KeptStep(s: string, p: string, r: string)
    requires p != [] && s != [] && !StartsWith(s, p)
    ensures ReplaceAll(s, p, r) == [s[0]] + ReplaceAll(s[1..], p, r)
  {
    RenderCons(Kept(s[0]), Cut(s[1..], p), r);
  }

  /** An occurrence at the start is replaced, and the scan resumes after it. */
  lemma HitStep(s: string, p: string, r: string)
    requires p != [] && StartsWith(s, p)
    ensures ReplaceAll(s, p, r) == r + ReplaceAll(s[|p|..], p, r)
  {
    RenderCons(Hit, Cut(s[|p|..], p), r);
  }

  /** The step of `SplitAtFirst` past one kept character, on plain values: `whole` is the
      result for `s`, `tail` the result for `s[1..]`. */
  lemma Regroup(s: string, i: nat, r: string, whole: string, tail: string, rest: string)
    requires 0 < i <= |s|
    requires whole == [s[0]] + tail && tail == s[1..][..i - 1] + r + rest
    ensures whole == s[..i] + r + rest
  {
    assert [s[0]] + s[1..][..i - 1] == s[..i];
  }

  /** The inductive step of `SplitAtFirst` when the first occurrence is not at the start. */
  lemma SplitPastKept(s: string, p: string, r: string, i: nat)
    requires p != [] && 0 < i && OccursAt(s, p, i) && !OccursAt(s, p, 0)
    requires ReplaceAll(s[1..], p, r)
             == s[1..][..i - 1] + r + ReplaceAll(s[1..][i - 1 + |p|..], p, r)
    ensures ReplaceAll(s, p, r) == s[..i] + r + ReplaceAll(s[i + |p|..], p, r)
  {
    KeptStep(s, p, r);
    assert s[1..][i - 1 + |p|..] == s[i + |p|..];
    Regroup(s, i, r, ReplaceAll(s, p, r), ReplaceAll(s[1..], p, r), ReplaceAll(s[i + |p|..], p, r));
  }

  /** Every occurrence is replaced, not only the first: `s.replace(p, r)` is the text before
      the first occurrence, then `r`, then the rest after that occurrence with every
      occurrence replaced in turn. With `ReplaceAbsent` this determines the result for
      every non-empty pattern. */
  lemma {:induction false} SplitAtFirst(s: string, p: string, r: string, i: nat)
    requires p != [] && OccursAt(s, p, i)
    requires forall j :: 0 <= j < i ==> !OccursAt(s, p, j)
    ensures ReplaceAll(s, p, r) == s[..i] + r + ReplaceAll(s[i + |p|..], p, r)
    decreases i
  {
    if i == 0 {
      HitStep(s, p, r);
      assert s[..i] + r == r;
    } else {
      FirstOccurrenceShift(s, p, i);
      SplitAtFirst(s[1..], p, r, i - 1);
      SplitPastKept(s, p, r, i);
    }
  }

  /** Where gap `i` of `s` begins in `s.replace("", r)`: each earlier gap took a copy of `r`
      and one character. */
  function Slot(i: nat, r: string): nat
  {
    if i == 0 then 0 else Slot(i - 1, r) + |r| + 1
  }

  lemma {:induction false} SlotValue(i: nat, r: string)
    ensures Slot(i, r) == i * (|r| + 1)
  {
    if i > 0 {
      SlotValue(i - 1, r);
      assert i * (|r| + 1) == (i - 1) * (|r| + 1) + |r| + 1;
    }
  }

  lemma EveryGapUnfold(s: string, r: string)
    requires s != []
    ensures ReplaceAll(s, [], r) == r + [s[0]] + ReplaceAll(s[1..], [], r)
  {
    RenderCons(Kept(s[0]), CutEveryGap(s[1..]), r);
    RenderCons(Hit, [Kept(s[0])] + CutEveryGap(s[1..]), r);
    assert [Hit, Kept(s[0])] + CutEveryGap(s[1..]) == [Hit] + ([Kept(s[0])] + CutEveryGap(s[1..]));
  }

  lemma {:induction false} EveryGapLength(s: string, r: string)
    ensures |ReplaceAll(s, [], r)| == Slot(|s|, r) + |r|
  {
    if s == [] {
      RenderCons(Hit, [], r);
      assert [Hit] + [] == [Hit];
    } else {
      EveryGapLength(s[1..], r);
      EveryGapUnfold(s, r);
    }
  }

  /** Gap `i` of `s.replace("", r)` holds a copy of `r`. */
  lemma {:induction false} EveryGapCopy(s: string, r: string, i: nat)
    requires i <= |s|
    ensures Slot(i, r) + |r| <= |ReplaceAll(s, [], r)|
    ensures ReplaceAll(s, [], r)[Slot(i, r)..Slot(i, r) + |r|] == r
  {
    if s == [] {
      RenderCons(Hit, [], r);
      assert [Hit] + [] == [Hit];
    } else {
      EveryGapUnfold(s, r);
      if i > 0 {
        EveryGapCopy(s[1..], r, i - 1);
        var T := ReplaceAll(s[1..], [], r);
        assert ReplaceAll(s, [], r)[Slot(i, r)..Slot(i, r) + |r|] == T[Slot(i - 1, r)..Slot(i - 1, r) + |r|];
      }
    }
  }

  /** Character `i` of `s` follows the copy of `r` in gap `i`. */
  lemma {:induction false} EveryGapChar(s: string, r: string, i: nat)
    requires i < |s|
    ensures Slot(i, r) + |r| < |ReplaceAll(s, [], r)|
    ensures ReplaceAll(s, [], r)[Slot(i, r) + |r|] == s[i]
  {
    EveryGapUnfold(s, r);
    if i > 0 {
      EveryGapChar(s[1..], r, i - 1);
      assert s[1..][i - 1] == s[i];
    }
  }

  /** The empty pattern inserts the replacement at each of the |s| + 1 gaps and keeps every
      character in order: the result is r, s[0], r, s[1], ..., s[|s| - 1], r, with gap `i`
      starting at `Slot(i, r) == i * (|r| + 1)` (`SlotValue`). */
  lemma ReplaceEmptyPattern(s: string, r: string)
    ensures |ReplaceAll(s, [], r)| == Slot(|s|, r) + |r|
    ensures forall i :: 0 <= i <= |s| ==>
      Slot(i, r) + |r| <= |ReplaceAll(s, [], r)| && ReplaceAll(s, [], r)[Slot(i, r)..Slot(i, r) + |r|] == r
    ensures forall i :: 0 <= i < |s| ==>
      Slot(i, r) + |r| < |ReplaceAll(s, [], r)| && ReplaceAll(s, [], r)[Slot(i, r) + |r|] == s[i]
  {
    EveryGapLength(s, r);
    forall i | 0 <= i <= |s|
      ensures Slot(i, r) + |r| <= |ReplaceAll(s, [], r)| && ReplaceAll(s, [], r)[Slot(i, r)..Slot(i, r) + |r|] == r
    {
      EveryGapCopy(s, r, i);
    }
    forall i | 0 <= i < |s|
      ensures Slot(i, r) + |r| < |ReplaceAll(s, [], r)| && ReplaceAll(s, [], r)[Slot(i, r) + |r|] == s[i]
    {
      EveryGapChar(s, r, i);
    }
  }

  /** The length of `s.replace("", r)`: the |s| characters and |s| + 1 copies of `r`. */
  lemma EmptyPatternLength(s: string, r: string)
    ensures |ReplaceAll(s, [], r)| == |s| + (|s| + 1) * |r|
  {
    EveryGapLength(s, r);
    SlotValue(|s|, r);
  }
}
