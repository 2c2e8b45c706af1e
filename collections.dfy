/**
 * The three screens that list stored exams: the full list with delete, the
 * signed-in user's own exams with delete, and the public exams. Each reads
 * the `exams` key (missing or unparsable reads as `[]`), filters it, and
 * the two delete handlers write the filtered list back.
 */
module Collections {
  import opened Common
  import opened Exams

  /** The three `filter` callbacks the screens use. */
  datatype Criterion =
    | NotId(id: string)        // exam.id !== examId
    | Owner(userId: string)    // exam.userId === currentUser.id
    | Public                   // exam.isPublic

  predicate Holds(c: Criterion, e: Exam)
  {
    match c
    case NotId(id) => !HasId(e, id)
    case Owner(userId) => OwnedBy(e, userId)
    case Public => IsPublic(e)
  }

  /** `exams.filter(...)`: the exams that meet the criterion, in their order. */
  function Filter(exams: seq<Exam>, c: Criterion): (r: seq<Exam>)
    ensures |r| <= |exams|
    ensures forall i :: 0 <= i < |r| ==> Holds(c, r[i])
  {
    if |exams| == 0 then []
    else
      var init := Filter(exams[..|exams| - 1], c);
      if Holds(c, exams[|exams| - 1]) then init + [exams[|exams| - 1]] else init
  }

  /** `a` is `b` with some elements dropped, the rest in the same order. */
  predicate Subsequence(a: seq<Exam>, b: seq<Exam>)
    decreases |b|
  {
    if |a| == 0 then true
    else if |b| == 0 then false
    else if a[|a| - 1] == b[|b| - 1] then Subsequence(a[..|a| - 1], b[..|b| - 1]) || Subsequence(a, b[..|b| - 1])
    else Subsequence(a, b[..|b| - 1])
  }

  /** An exam is kept exactly when it is in the list and meets the criterion. */
  lemma {:induction false} FilterMembers(exams: seq<Exam>, c: Criterion, e: Exam)
    ensures e in Filter(exams, c) <==> e in exams && Holds(c, e)
  {
    if |exams| > 0 {
      var init := exams[..|exams| - 1];
      FilterMembers(init, c, e);
      assert exams == init + [exams[|exams| - 1]];
    }
  }

  /** The filtered list keeps the stored order. */
  lemma {:induction false} FilterIsSubsequence(exams: seq<Exam>, c: Criterion)
    ensures Subsequence(Filter(exams, c), exams)
  {
    if |exams| > 0 {
      var init := exams[..|exams| - 1];
      FilterIsSubsequence(init, c);
      var r := Filter(exams, c);
      if Holds(c, exams[|exams| - 1]) {
        assert r[..|r| - 1] == Filter(init, c);
      } else {
        SubsequenceDropLast(r, exams);
      }
    }
  }

  lemma SubsequenceDropLast(a: seq<Exam>, b: seq<Exam>)
    requires |b| > 0 && Subsequence(a, b[..|b| - 1])
    ensures Subsequence(a, b)
  {
  }

  /** When every exam meets the criterion (deleting an id nobody has, say), the list is unchanged. */
  lemma {:induction false} FilterKeepsAll(exams: seq<Exam>, c: Criterion)
    requires forall i :: 0 <= i < |exams| ==> Holds(c, exams[i])
    ensures Filter(exams, c) == exams
  {
    if |exams| > 0 {
      FilterKeepsAll(exams[..|exams| - 1], c);
    }
  }

  /** Filtering twice by the same criterion is filtering once. */
  lemma FilterIdempotent(exams: seq<Exam>, c: Criterion)
    ensures Filter(Filter(exams, c), c) == Filter(exams, c)
  {
    FilterKeepsAll(Filter(exams, c), c);
  }

  /** Two filters commute, so deleting from a filtered view is filtering the list the delete wrote. */
  lemma {:induction false} FiltersCommute(exams: seq<Exam>, c: Criterion, d: Criterion)
    ensures Filter(Filter(exams, c), d) == Filter(Filter(exams, d), c)
  {
    if |exams| > 0 {
      var init := exams[..|exams| - 1];
      var last := exams[|exams| - 1];
      FiltersCommute(init, c, d);
      FilterSnoc(Filter(init, c), d, last);
      FilterSnoc(Filter(init, d), c, last);
    }
  }

  /** Filtering a list with one more exam at its end. */
  lemma FilterSnoc(exams: seq<Exam>, c: Criterion, e: Exam)
    ensures Filter(exams + [e], c) == if Holds(c, e) then Filter(exams, c) + [e] else Filter(exams, c)
  {
    assert (exams + [e])[..|exams|] == exams;
  }

  /** Deleting by id removes every exam with that id and no other. */
  lemma DeleteRemovesExactly(exams: seq<Exam>, id: string, e: Exam)
    ensures e in Filter(exams, NotId(id)) <==> e in exams && e.id != Given(id)
  {
    FilterMembers(exams, NotId(id), e);
  }

  /** The full exam list with its delete handler. */
  class ExamList {
    var exams: seq<Exam>
    var stored: Blob<Exam>
    var isLoading: bool

    constructor (storedExams: Blob<Exam>)
      ensures exams == [] && stored == storedExams && !isLoading
    {
      exams := [];
      stored := storedExams;
      isLoading := false;
    }

    /** `loadExams`: the stored list, or `[]` when the key is empty or unparsable. */
    method LoadExams()
      modifies this
      ensures exams == ItemsOrEmpty(stored)
      ensures stored.Missing? || stored.Unreadable? ==> exams == []
      ensures stored == old(stored) && !isLoading
    {
      isLoading := true;
      exams := ItemsOrEmpty(stored);
      isLoading := false;
    }

    /** The confirmed delete: the in-memory list minus that id replaces both the view and the stored list. */
    method DeleteExam(examId: string)
      modifies this
      ensures exams == Filter(old(exams), NotId(examId))
      ensures stored == Present(exams)
      ensures Subsequence(exams, old(exams))
      ensures (forall i :: 0 <= i < |old(exams)| ==> !HasId(old(exams)[i], examId)) ==> exams == old(exams)
      ensures isLoading == old(isLoading)
    {
      var updatedExams := Filter(exams, NotId(examId));
      FilterIsSubsequence(exams, NotId(examId));
      if forall i :: 0 <= i < |exams| ==> !HasId(exams[i], examId) {
        FilterKeepsAll(exams, NotId(examId));
      }
      exams := updatedExams;
      stored := Present(updatedExams);
    }
  }

  /** The signed-in user's dashboard. */
  class Dashboard {
    var userExams: seq<Exam>
    var stored: Blob<Exam>
    var currentUser: Option<User>
    var isLoading: bool

    constructor (storedExams: Blob<Exam>, user: Option<User>)
      ensures userExams == [] && stored == storedExams && currentUser == user && !isLoading
    {
      userExams := [];
      stored := storedExams;
      currentUser := user;
      isLoading := false;
    }

    /** The view shows exactly the user's stored exams, in stored order. */
    predicate ShowsOwnExams()
      reads this
    {
      currentUser.Some? && userExams == Filter(ItemsOrEmpty(stored), Owner(currentUser.value.id))
    }

    /** `loadUserExams`: nothing without a user; otherwise the owner's exams, `[]` for an empty or unparsable key. */
    method LoadUserExams()
      modifies this
      ensures currentUser.None? ==> userExams == old(userExams) && isLoading == old(isLoading)
      ensures currentUser.Some? ==> ShowsOwnExams() && !isLoading
      ensures currentUser.Some? && !stored.Present? ==> userExams == []
      ensures stored == old(stored) && currentUser == old(currentUser)
    {
      if currentUser.None? {
        return;
      }
      isLoading := true;
      userExams := Filter(ItemsOrEmpty(stored), Owner(currentUser.value.id));
      isLoading := false;
    }

    /**
     * The confirmed delete: the view loses the id at once; the stored list is
     * read again, loses the id and is written back. When the stored text does
     * not parse, the handler reloads instead, which empties the view.
     */
    method DeleteExam(examId: string)
      modifies this
      ensures stored.Present? ==> userExams == Filter(old(userExams), NotId(examId))
      ensures !old(stored).Unreadable? ==> stored == Present(Filter(ItemsOrEmpty(old(stored)), NotId(examId)))
      ensures old(stored).Unreadable? ==> stored == old(stored)
                                          && userExams == (if currentUser.Some? then [] else Filter(old(userExams), NotId(examId)))
      ensures old(ShowsOwnExams()) ==> ShowsOwnExams()
      ensures currentUser == old(currentUser)
    {
      userExams := Filter(userExams, NotId(examId));
      if stored.Unreadable? {
        LoadUserExams();
        return;
      }
      var allExams := ItemsOrEmpty(stored);
      if old(ShowsOwnExams()) {
        FiltersCommute(allExams, Owner(currentUser.value.id), NotId(examId));
      }
      allExams := Filter(allExams, NotId(examId));
      stored := Present(allExams);
    }
  }

  /** The home screen's public exams. */
  class Home {
    var publicExams: seq<Exam>
    var stored: Blob<Exam>
    var isLoading: bool

    constructor (storedExams: Blob<Exam>)
      ensures publicExams == [] && stored == storedExams && !isLoading
    {
      publicExams := [];
      stored := storedExams;
      isLoading := false;
    }

    /** `loadPublicExams`: the stored exams whose `isPublic` is truthy, in order; `[]` for an empty or unparsable key. */
    method LoadPublicExams()
      modifies this
      ensures publicExams == Filter(ItemsOrEmpty(stored), Public)
      ensures forall e :: e in publicExams <==> e in ItemsOrEmpty(stored) && IsPublic(e)
      ensures Subsequence(publicExams, ItemsOrEmpty(stored))
      ensures !stored.Present? ==> publicExams == []
      ensures stored == old(stored) && !isLoading
    {
      isLoading := true;
      var allExams := ItemsOrEmpty(stored);
      forall e ensures e in Filter(allExams, Public) <==> e in allExams && IsPublic(e) {
        FilterMembers(allExams, Public, e);
      }
      FilterIsSubsequence(allExams, Public);
      publicExams := Filter(allExams, Public);
      isLoading := false;
    }
  }
}
