/**
 * The row of building buttons above the lecture map: one button per
 * distinct building name found in the lectures' schedules, in the order
 * the names are first met; nothing at all when there is none.
 */
module BuildingButtons {
  import opened Common
  import opened LectureView

  /** `sched?.location_details?.building_name || sched?.location_details?.building_code`, when that is truthy. */
  function Candidate(s: Schedule): (r: seq<string>)
    ensures |r| <= 1 && forall n :: n in r ==> n != ""
  {
    if s.details.None? then []
    else if Truthy(s.details.value.buildingName) then [s.details.value.buildingName.value]
    else if Truthy(s.details.value.buildingCode) then [s.details.value.buildingCode.value]
    else []
  }

  /** The candidate names of a lecture's schedules, in order. */
  function ScheduleNames(scheds: seq<Schedule>): seq<string>
  {
    if scheds == [] then [] else ScheduleNames(scheds[..|scheds| - 1]) + Candidate(scheds[|scheds| - 1])
  }

  /** The names a lecture contributes: none when `lecture.schedules` is missing. */
  function LectureNames(l: Lecture): seq<string>
  {
    if l.schedules.Some? then ScheduleNames(l.schedules.value) else []
  }

  /** Every candidate name over all lectures, in the order the two `forEach` loops visit them. */
  function AllNames(lectures: seq<Lecture>): seq<string>
  {
    if lectures == [] then [] else AllNames(lectures[..|lectures| - 1]) + LectureNames(lectures[|lectures| - 1])
  }

  /** `set.add(x)` on an insertion-ordered set. */
  function Add(names: seq<string>, x: string): seq<string>
  {
    if x in names then names else names + [x]
  }

  /** The insertion-ordered set a sequence of `add` calls builds. */
  function Dedup(xs: seq<string>): (r: seq<string>)
    ensures forall x :: x in r <==> x in xs
  {
    if xs == [] then [] else Add(Dedup(xs[..|xs| - 1]), xs[|xs| - 1])
  }

  predicate Distinct(s: seq<string>)
  {
    forall i, j :: 0 <= i < j < |s| ==> s[i] != s[j]
  }

  /** The set holds each name once. */
  lemma {:induction false} DedupDistinct(xs: seq<string>)
    ensures Distinct(Dedup(xs))
    decreases |xs|
  {
    if xs != [] {
      DedupDistinct(xs[..|xs| - 1]);
    }
  }

  /** Names met first come first: the set built from a prefix starts the set built from the whole. */
  lemma {:induction false} DedupPrefix(a: seq<string>, b: seq<string>)
    ensures Dedup(a) <= Dedup(a + b)
    decreases |b|
  {
    if b == [] {
      assert a + b == a;
    } else {
      var b' := b[..|b| - 1];
      DedupPrefix(a, b');
      assert (a + b)[..|a + b| - 1] == a + b';
    }
  }

  /** Adding an already collected name changes nothing; adding a new one puts it last. */
  lemma DedupStep(xs: seq<string>, x: string)
    ensures Dedup(xs + [x]) == Add(Dedup(xs), x)
  {
    assert (xs + [x])[..|xs|] == xs;
  }

  /** A lecture without schedules adds no name, and neither does a schedule without a truthy name or code. */
  lemma NamesMeaning(lectures: seq<Lecture>, l: Lecture, s: Schedule)
    ensures l.schedules.None? ==> AllNames(lectures + [l]) == AllNames(lectures)
    ensures forall n :: n in AllNames(lectures) ==> n != ""
    ensures Candidate(s) == [] <==>
              s.details.None? || (!Truthy(s.details.value.buildingName) && !Truthy(s.details.value.buildingCode))
    ensures s.details.Some? && Truthy(s.details.value.buildingName) ==> Candidate(s) == [s.details.value.buildingName.value]
  {
    assert (lectures + [l])[..|lectures|] == lectures;
    AllNamesNonEmpty(lectures);
  }

  lemma {:induction false} AllNamesNonEmpty(lectures: seq<Lecture>)
    ensures forall n :: n in AllNames(lectures) ==> n != ""
    decreases |lectures|
  {
    if lectures != [] {
      AllNamesNonEmpty(lectures[..|lectures| - 1]);
      var l := lectures[|lectures| - 1];
      if l.schedules.Some? {
        ScheduleNamesNonEmpty(l.schedules.value);
      }
    }
  }

  lemma {:induction false} ScheduleNamesNonEmpty(scheds: seq<Schedule>)
    ensures forall n :: n in ScheduleNames(scheds) ==> n != ""
    decreases |scheds|
  {
    if scheds != [] {
      ScheduleNamesNonEmpty(scheds[..|scheds| - 1]);
    }
  }

  lemma OuterStep(ls: seq<Lecture>, i: nat)
    requires i < |ls|
    ensures AllNames(ls[..i + 1]) == AllNames(ls[..i]) + LectureNames(ls[i])
  {
    assert ls[..i + 1][..i] == ls[..i];
  }

  /** One schedule more: its candidate, if any, is added to the set built so far. */
  lemma InnerStep(prefix: seq<string>, scheds: seq<Schedule>, j: nat)
    requires j < |scheds|
    ensures var before := Dedup(prefix + ScheduleNames(scheds[..j]));
      var c := Candidate(scheds[j]);
      Dedup(prefix + ScheduleNames(scheds[..j + 1])) == (if c == [] then before else Add(before, c[0]))
  {
    assert scheds[..j + 1][..j] == scheds[..j];
    var xs := prefix + ScheduleNames(scheds[..j]);
    var c := Candidate(scheds[j]);
    assert prefix + ScheduleNames(scheds[..j + 1]) == xs + c;
    if c == [] {
      assert xs + c == xs;
    } else {
      DedupStep(xs, c[0]);
    }
  }

  /** The inner `forEach`: each schedule's name added to the set built so far. */
  method AddScheduleNames(names: seq<string>, ghost prefix: seq<string>, scheds: seq<Schedule>) returns (r: seq<string>)
    requires names == Dedup(prefix)
    ensures r == Dedup(prefix + ScheduleNames(scheds))
  {
    r := names;
    assert scheds[..0] == [] && prefix + [] == prefix;
    var j := 0;
    while j < |scheds|
      invariant 0 <= j <= |scheds|
      invariant r == Dedup(prefix + ScheduleNames(scheds[..j]))
    {
      r := AddScheduleName(r, prefix, scheds, j);
      j := j + 1;
    }
    assert scheds[..j] == scheds;
  }

  /** The body of the inner `forEach`: schedule `j`'s name, if any, added to the set. */
  method AddScheduleName(names: seq<string>, ghost prefix: seq<string>, scheds: seq<Schedule>, j: nat) returns (r: seq<string>)
    requires j < |scheds| && names == Dedup(prefix + ScheduleNames(scheds[..j]))
    ensures r == Dedup(prefix + ScheduleNames(scheds[..j + 1]))
  {
    var name := Candidate(scheds[j]);
    InnerStep(prefix, scheds, j);
    r := names;
    if name != [] {
      r := Add(r, name[0]);
    }
  }

  /**
   * The component: `null` when no name was found, else the buttons' names,
   * which are the distinct candidate names in first-met order.
   */
  method Buttons(lectures: Option<seq<Lecture>>) returns (r: Option<seq<string>>)
    ensures var all := AllNames(if lectures.Some? then lectures.value else []);
      (r.None? <==> all == []) && (r.Some? ==> r.value == Dedup(all))
  {
    var ls := if lectures.Some? then lectures.value else [];
    var buildingSet: seq<string> := [];
    var i := 0;
    while i < |ls|
      invariant 0 <= i <= |ls|
      invariant buildingSet == Dedup(AllNames(ls[..i]))
    {
      buildingSet := AddLectureNames(buildingSet, ls, i);
      i := i + 1;
    }
    assert ls[..i] == ls;
    if |buildingSet| == 0 {
      return None;
    }
    return Some(buildingSet);
  }

  /** The body of the outer `forEach` for the `i`-th lecture. */
  method AddLectureNames(names: seq<string>, ls: seq<Lecture>, i: nat) returns (r: seq<string>)
    requires i < |ls| && names == Dedup(AllNames(ls[..i]))
    ensures r == Dedup(AllNames(ls[..i + 1]))
  {
    var lecture := ls[i];
    OuterStep(ls, i);
    if lecture.schedules.Some? {
      r := AddScheduleNames(names, AllNames(ls[..i]), lecture.schedules.value);
    } else {
      assert AllNames(ls[..i]) + [] == AllNames(ls[..i]);
      r := names;
    }
  }
}
