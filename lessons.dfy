/** The lesson catalogue page: the search-and-level filter over the lesson
    list, and the progress counts shown above it. */
module Lessons {

  datatype Difficulty = Beginner | Intermediate | Advanced

  /** The level buttons: every level, or one. */
  datatype LevelFilter = All | Only(level: Difficulty)

  datatype Lesson = Lesson(
    id: int,
    title: string,
    description: string,
    duration: string,
    difficulty: Difficulty,
    progress: int,
    language: string,
    completed: bool)

  // ---------------------------------------------------------------------
  // Text matching

  /** Lower-casing of one character (letters A to Z). */
  function LowerChar(c: char): char {
    if 'A' <= c <= 'Z' then (c as int + 32) as char else c
  }

  function ToLower(s: string): string {
    seq(|s|, i requires 0 <= i < |s| => LowerChar(s[i]))
  }

  /** The term occurs in the text starting at position i. */
  predicate OccursAt(text: string, term: string, i: int) {
    0 <= i <= |text| - |term| && text[i..i + |term|] == term
  }

  /** `text.includes(term)`: the term occurs somewhere in the text. */
  function Includes(text: string, term: string): (r: bool)
    ensures r <==> exists i :: OccursAt(text, term, i)
  {
    if term <= text then
      assert OccursAt(text, term, 0);
      true
    else if text == [] then
      assert forall i :: !OccursAt(text, term, i);
      false
    else
      var r := Includes(text[1..], term);
      assert r ==> exists i :: OccursAt(text, term, i) by {
        if r {
          var i :| OccursAt(text[1..], term, i);
          OccursShift(text, term, i);
        }
      }
      assert (exists i :: OccursAt(text, term, i)) ==> r by {
        if exists i :: OccursAt(text, term, i) {
          var i :| OccursAt(text, term, i);
          if i == 0 {
            assert false;
          } else {
            OccursShift(text, term, i - 1);
          }
        }
      }
      r
  }

  /** An occurrence in the tail is an occurrence one place later in the
      text. */
  lemma OccursShift(text: string, term: string, i: int)
    requires text != [] && 0 <= i
    ensures OccursAt(text[1..], term, i) <==> OccursAt(text, term, i + 1)
  {
    if 0 <= i <= |text| - 1 - |term| {
      assert text[1..][i..i + |term|] == text[i + 1..i + 1 + |term|];
    }
  }

  /** Case-insensitive match of the search term on title or description. */
  predicate MatchesSearch(lesson: Lesson, searchTerm: string) {
    var term := ToLower(searchTerm);
    Includes(ToLower(lesson.title), term) || Includes(ToLower(lesson.description), term)
  }

  predicate MatchesLevel(lesson: Lesson, filter: LevelFilter) {
    filter == All || filter == Only(lesson.difficulty)
  }

  predicate Shown(lesson: Lesson, searchTerm: string, filter: LevelFilter) {
    MatchesSearch(lesson, searchTerm) && MatchesLevel(lesson, filter)
  }

  // ---------------------------------------------------------------------
  // The filter

  /** The lessons shown, in catalogue order. */
  function FilterLessons(lessons: seq<Lesson>, searchTerm: string, filter: LevelFilter): (r: seq<Lesson>)
    ensures forall l :: l in r <==> l in lessons && Shown(l, searchTerm, filter)
  {
    if lessons == [] then []
    else
      (if Shown(lessons[0], searchTerm, filter) then [lessons[0]] else [])
        + FilterLessons(lessons[1..], searchTerm, filter)
  }

  /** `a` is `b` with some entries left out and the rest in order. */
  ghost predicate IsSubsequence(a: seq<Lesson>, b: seq<Lesson>)
    decreases |b|
  {
    if a == [] then true
    else if b == [] then false
    else (a[0] == b[0] && IsSubsequence(a[1..], b[1..])) || IsSubsequence(a, b[1..])
  }

  /** The filter only leaves lessons out: it neither adds, repeats nor
      reorders any. */
  lemma {:induction false} FilterIsSubsequence(lessons: seq<Lesson>, searchTerm: string, filter: LevelFilter)
    ensures IsSubsequence(FilterLessons(lessons, searchTerm, filter), lessons)
  {
    if lessons != [] {
      var rest := FilterLessons(lessons[1..], searchTerm, filter);
      FilterIsSubsequence(lessons[1..], searchTerm, filter);
      if Shown(lessons[0], searchTerm, filter) {
        assert FilterLessons(lessons, searchTerm, filter) == [lessons[0]] + rest;
        assert ([lessons[0]] + rest)[1..] == rest;
      } else {
        assert FilterLessons(lessons, searchTerm, filter) == rest;
      }
    }
  }

  /** The filter keeps every copy of a lesson it shows: a lesson listed
      twice is shown twice. */
  lemma {:induction false} FilterKeepsCopies(lessons: seq<Lesson>, searchTerm: string, filter: LevelFilter)
    ensures forall l ::
      multiset(FilterLessons(lessons, searchTerm, filter))[l] ==
        (if Shown(l, searchTerm, filter) then multiset(lessons)[l] else 0)
  {
    if lessons != [] {
      FilterKeepsCopies(lessons[1..], searchTerm, filter);
      assert lessons == [lessons[0]] + lessons[1..];
    }
  }

  /** Lower-casing twice changes nothing more. */
  lemma ToLowerIdempotent(s: string)
    ensures ToLower(ToLower(s)) == ToLower(s)
  {
  }

  /** The search ignores the case of the term: a term and its lower-cased
      form match the same lessons. */
  lemma SearchIgnoresCase(lesson: Lesson, term: string)
    ensures MatchesSearch(lesson, ToLower(term)) == MatchesSearch(lesson, term)
  {
    ToLowerIdempotent(term);
  }

  /** A term found verbatim in the title matches. */
  lemma TitleMatches(lesson: Lesson, term: string, i: int)
    requires OccursAt(lesson.title, term, i)
    ensures MatchesSearch(lesson, term)
  {
    var title := ToLower(lesson.title);
    assert title[i..i + |term|] == ToLower(term);
    assert OccursAt(title, ToLower(term), i);
  }

  /** Every text contains the empty term. */
  lemma IncludesEmpty(text: string)
    ensures Includes(text, "")
  {
    assert OccursAt(text, "", 0);
  }

  /** An empty search with every level selected shows the whole catalogue. */
  lemma {:induction false} EmptySearchShowsAll(lessons: seq<Lesson>)
    ensures FilterLessons(lessons, "", All) == lessons
  {
    if lessons != [] {
      IncludesEmpty(ToLower(lessons[0].title));
      assert ToLower("") == "";
      EmptySearchShowsAll(lessons[1..]);
    }
  }

  /** With one level selected, every lesson shown has that level. */
  lemma OnlySelectedLevel(lessons: seq<Lesson>, searchTerm: string, level: Difficulty)
    ensures forall l :: l in FilterLessons(lessons, searchTerm, Only(level)) ==> l.difficulty == level
  {
  }

  /** When the search matches exactly one lesson, and every level is
      selected, that lesson alone is shown. */
  lemma {:induction false} SingleMatch(lessons: seq<Lesson>, k: int, searchTerm: string)
    requires 0 <= k < |lessons| && MatchesSearch(lessons[k], searchTerm)
    requires forall j :: 0 <= j < |lessons| && j != k ==> !MatchesSearch(lessons[j], searchTerm)
    ensures FilterLessons(lessons, searchTerm, All) == [lessons[k]]
  {
    if k == 0 {
      NoneShown(lessons[1..], searchTerm);
    } else {
      assert !MatchesSearch(lessons[0], searchTerm);
      SingleMatch(lessons[1..], k - 1, searchTerm);
    }
  }

  lemma {:induction false} NoneShown(lessons: seq<Lesson>, searchTerm: string)
    requires forall j :: 0 <= j < |lessons| ==> !MatchesSearch(lessons[j], searchTerm)
    ensures FilterLessons(lessons, searchTerm, All) == []
  {
    if lessons != [] {
      NoneShown(lessons[1..], searchTerm);
    }
  }

  // ---------------------------------------------------------------------
  // Progress counts

  /** The lesson groups the page counts, and two more used to relate them. */
  datatype Group =
    | Completed         // completed
    | InProgress        // progress above 0 and not completed
    | NotStarted        // progress exactly 0, completed or not
    | Idle              // not completed and progress at most 0
    | CompletedAtZero   // completed with progress 0
    | BelowZero         // not completed with negative progress

  predicate InGroup(l: Lesson, g: Group) {
    match g
    case Completed => l.completed
    case InProgress => l.progress > 0 && !l.completed
    case NotStarted => l.progress == 0
    case Idle => !l.completed && l.progress <= 0
    case CompletedAtZero => l.completed && l.progress == 0
    case BelowZero => !l.completed && l.progress < 0
  }

  /** `lessons.filter(<group>).length`. */
  function Count(lessons: seq<Lesson>, g: Group): (n: nat)
    ensures n <= |lessons|
  {
    if lessons == [] then 0 else (if InGroup(lessons[0], g) then 1 else 0) + Count(lessons[1..], g)
  }

  datatype ProgressStats = ProgressStats(completed: nat, inProgress: nat, notStarted: nat, total: nat)

  /** The counts of the page; completed and in-progress lessons are never
      counted together beyond the total. */
  function GetProgressStats(lessons: seq<Lesson>): (r: ProgressStats)
    ensures r.total == |lessons|
    ensures r.completed + r.inProgress <= r.total
    ensures r.notStarted <= r.total
  {
    CompletedInProgressDisjoint(lessons);
    ProgressStats(Count(lessons, Completed), Count(lessons, InProgress), Count(lessons, NotStarted), |lessons|)
  }

  /** Completed and in-progress lessons are disjoint groups: with the idle
      ones they split the catalogue. */
  lemma {:induction false} CompletedInProgressDisjoint(lessons: seq<Lesson>)
    ensures Count(lessons, Completed) + Count(lessons, InProgress) + Count(lessons, Idle) == |lessons|
  {
    if lessons != [] {
      CompletedInProgressDisjoint(lessons[1..]);
    }
  }

  /** How far the three counts are from adding up to the total: a completed
      lesson at progress 0 is counted twice, an open lesson below 0 not at
      all. */
  lemma {:induction false} StatsBalance(lessons: seq<Lesson>)
    ensures var s := GetProgressStats(lessons);
      s.completed + s.inProgress + s.notStarted + Count(lessons, BelowZero)
        == s.total + Count(lessons, CompletedAtZero)
  {
    if lessons != [] {
      StatsBalance(lessons[1..]);
    }
  }

  lemma {:induction false} CountZero(lessons: seq<Lesson>, g: Group)
    ensures Count(lessons, g) == 0 <==> forall i :: 0 <= i < |lessons| ==> !InGroup(lessons[i], g)
  {
    if lessons != [] {
      CountZero(lessons[1..], g);
      assert forall i :: 1 <= i < |lessons| ==> lessons[i] == lessons[1..][i - 1];
    }
  }

  /** With no negative progress, the three counts add up to the total
      exactly when no completed lesson sits at progress 0. */
  lemma StatsAddUp(lessons: seq<Lesson>)
    requires forall i :: 0 <= i < |lessons| ==> lessons[i].progress >= 0
    ensures var s := GetProgressStats(lessons);
      (s.completed + s.inProgress + s.notStarted == s.total)
        <==> forall i :: 0 <= i < |lessons| ==> !(lessons[i].completed && lessons[i].progress == 0)
  {
    StatsBalance(lessons);
    CountZero(lessons, BelowZero);
    CountZero(lessons, CompletedAtZero);
  }
}
