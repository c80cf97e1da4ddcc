/** The score board of src/app/score.c: two sorted arrays are merged in one pass. */
module Score {
  import opened Common

  datatype User = User(id: seq<byte>, username: seq<byte>, score: int)

  datatype Answer = Answer(user: seq<byte>, challenge: int, createdAt: int)

  // ---------------------------------------------------------------- the order of ids

  // strcmp's order on strings without NUL: a proper prefix comes first.
  predicate Less(a: seq<byte>, b: seq<byte>) {
    if b == [] then false
    else a == [] || a[0] < b[0] || (a[0] == b[0] && Less(a[1..], b[1..]))
  }

  function StrCmp(a: seq<byte>, b: seq<byte>): int {
    if Less(a, b) then -1 else if Less(b, a) then 1 else 0
  }

  lemma {:induction false} LessTransitive(a: seq<byte>, b: seq<byte>, c: seq<byte>)
    requires Less(a, b) && Less(b, c)
    ensures Less(a, c)
  {
    if a != [] && a[0] == b[0] == c[0] {
      LessTransitive(a[1..], b[1..], c[1..]);
    }
  }

  lemma {:induction false} LessTotal(a: seq<byte>, b: seq<byte>)
    ensures Less(a, b) || Less(b, a) || a == b
  {
    if a != [] && b != [] && a[0] == b[0] {
      LessTotal(a[1..], b[1..]);
      assert a == [a[0]] + a[1..] && b == [b[0]] + b[1..];
    }
  }

  lemma {:induction false} LessIrreflexive(a: seq<byte>)
    ensures !Less(a, a)
  {
    if a != [] {
      LessIrreflexive(a[1..]);
    }
  }

  // The first byte that differs is smaller, or there is none and `a` ends first.
  predicate ComesFirst(a: seq<byte>, b: seq<byte>) {
    exists k: nat :: k <= |a| && k < |b| && a[..k] == b[..k] && (k == |a| || a[k] < b[k])
  }

  lemma {:induction false} LessFirst(a: seq<byte>, b: seq<byte>) returns (k: nat)
    requires Less(a, b)
    ensures k <= |a| && k < |b| && a[..k] == b[..k] && (k == |a| || a[k] < b[k])
  {
    k := 0;
    if a != [] && a[0] == b[0] {
      var i := LessFirst(a[1..], b[1..]);
      k := i + 1;
      assert a[..k] == [a[0]] + a[1..][..i] && b[..k] == [b[0]] + b[1..][..i];
    }
  }

  lemma {:induction false} FirstLess(a: seq<byte>, b: seq<byte>, k: nat)
    requires k <= |a| && k < |b| && a[..k] == b[..k] && (k == |a| || a[k] < b[k])
    ensures Less(a, b)
  {
    if k > 0 {
      assert a[0] == a[..k][0] == b[..k][0] == b[0];
      assert a[1..][..k - 1] == a[..k][1..] == b[..k][1..] == b[1..][..k - 1];
      FirstLess(a[1..], b[1..], k - 1);
    }
  }

  /** The order of ids is that of their first difference. */
  lemma LessIsFirst(a: seq<byte>, b: seq<byte>)
    ensures Less(a, b) <==> ComesFirst(a, b)
  {
    if Less(a, b) {
      var k := LessFirst(a, b);
    }
    if ComesFirst(a, b) {
      var k: nat :| k <= |a| && k < |b| && a[..k] == b[..k] && (k == |a| || a[k] < b[k]);
      FirstLess(a, b, k);
    }
  }

  lemma StrCmpFacts(a: seq<byte>, b: seq<byte>)
    ensures StrCmp(a, b) == 0 <==> a == b
    ensures StrCmp(a, b) < 0 <==> Less(a, b)
    ensures StrCmp(a, b) > 0 <==> Less(b, a)
  {
    LessTotal(a, b);
    LessIrreflexive(a);
    if Less(a, b) && Less(b, a) {
      LessTransitive(a, b, a);
    }
  }

  lemma StrCmpTransitive(a: seq<byte>, b: seq<byte>, c: seq<byte>)
    requires StrCmp(a, b) <= 0 && StrCmp(b, c) <= 0
    ensures StrCmp(a, c) <= 0
    ensures StrCmp(a, c) == 0 ==> StrCmp(a, b) == 0 && StrCmp(b, c) == 0
  {
    StrCmpFacts(a, b);
    StrCmpFacts(b, c);
    StrCmpFacts(a, c);
    LessIrreflexive(a);
    if Less(a, b) && Less(b, c) {
      LessTransitive(a, b, c);
    }
  }

  // ---------------------------------------------------------------- the comparators

  function CompareUserIds(a: User, b: User): int {
    StrCmp(a.id, b.id)
  }

  function CompareAnswers(a: Answer, b: Answer): int {
    var order := StrCmp(a.user, b.user);
    if order != 0 then order
    else (if a.challenge > b.challenge then 1 else 0) - (if a.challenge < b.challenge then 1 else 0)
  }

  // The higher score first, then the lower id.
  function CompareScores(a: User, b: User): int {
    if a.score != b.score then (if a.score < b.score then 1 else 0) - (if a.score > b.score then 1 else 0)
    else StrCmp(a.id, b.id)
  }

  // What qsort needs of a comparator.
  ghost predicate Orders<T(!new)>(cmp: (T, T) -> int) {
    && (forall x, y :: cmp(x, y) <= 0 || cmp(y, x) <= 0)
    && (forall x, y, z :: cmp(x, y) <= 0 && cmp(y, z) <= 0 ==> cmp(x, z) <= 0)
  }

  lemma UserIdsOrder()
    ensures Orders(CompareUserIds)
  {
    forall x, y ensures CompareUserIds(x, y) <= 0 || CompareUserIds(y, x) <= 0 {
      StrCmpFacts(x.id, y.id);
      StrCmpFacts(y.id, x.id);
    }
    forall x, y, z | CompareUserIds(x, y) <= 0 && CompareUserIds(y, z) <= 0 ensures CompareUserIds(x, z) <= 0 {
      StrCmpTransitive(x.id, y.id, z.id);
    }
  }

  lemma AnswersOrder()
    ensures Orders(CompareAnswers)
  {
    forall x, y ensures CompareAnswers(x, y) <= 0 || CompareAnswers(y, x) <= 0 {
      StrCmpFacts(x.user, y.user);
      StrCmpFacts(y.user, x.user);
    }
    forall x, y, z | CompareAnswers(x, y) <= 0 && CompareAnswers(y, z) <= 0 ensures CompareAnswers(x, z) <= 0 {
      StrCmpTransitive(x.user, y.user, z.user);
    }
  }

  lemma ScoresOrder()
    ensures Orders(CompareScores)
  {
    forall x, y ensures CompareScores(x, y) <= 0 || CompareScores(y, x) <= 0 {
      StrCmpFacts(x.id, y.id);
      StrCmpFacts(y.id, x.id);
    }
    forall x, y, z | CompareScores(x, y) <= 0 && CompareScores(y, z) <= 0 ensures CompareScores(x, z) <= 0 {
      if x.score == y.score == z.score {
        StrCmpTransitive(x.id, y.id, z.id);
      }
    }
  }

  // ---------------------------------------------------------------- qsort

  predicate Sorted<T>(s: seq<T>, cmp: (T, T) -> int) {
    forall i, j :: 0 <= i < j < |s| ==> cmp(s[i], s[j]) <= 0
  }

  function Insert<T>(x: T, s: seq<T>, cmp: (T, T) -> int): seq<T> {
    if s == [] || cmp(x, s[0]) <= 0 then [x] + s else [s[0]] + Insert(x, s[1..], cmp)
  }

  function Arrange<T>(s: seq<T>, cmp: (T, T) -> int): seq<T> {
    if s == [] then [] else Insert(s[0], Arrange(s[1..], cmp), cmp)
  }

  lemma {:induction false} InsertKeeps<T>(x: T, s: seq<T>, cmp: (T, T) -> int)
    ensures multiset(Insert(x, s, cmp)) == multiset(s) + multiset{x}
  {
    if s != [] && cmp(x, s[0]) > 0 {
      InsertKeeps(x, s[1..], cmp);
      assert s == [s[0]] + s[1..];
    }
  }

  lemma FirstStaysFirst<T(!new)>(x: T, s: seq<T>, rest: seq<T>, cmp: (T, T) -> int)
    requires Orders(cmp) && s != [] && Sorted(s, cmp) && cmp(x, s[0]) > 0
    requires multiset(rest) == multiset(s[1..]) + multiset{x}
    ensures forall j :: 0 <= j < |rest| ==> cmp(s[0], rest[j]) <= 0
  {
    forall j | 0 <= j < |rest| ensures cmp(s[0], rest[j]) <= 0 {
      assert rest[j] in multiset(rest);
      assert rest[j] == x || rest[j] in s[1..];
    }
  }

  lemma {:induction false} InsertSorts<T(!new)>(x: T, s: seq<T>, cmp: (T, T) -> int)
    requires Orders(cmp) && Sorted(s, cmp)
    ensures Sorted(Insert(x, s, cmp), cmp)
  {
    if s != [] {
      if cmp(x, s[0]) <= 0 {
        assert forall j :: 0 <= j < |s| ==> cmp(x, s[j]) <= 0;
      } else {
        InsertSorts(x, s[1..], cmp);
        InsertKeeps(x, s[1..], cmp);
        FirstStaysFirst(x, s, Insert(x, s[1..], cmp), cmp);
      }
    }
  }

  lemma NothingIsSorted<T>(cmp: (T, T) -> int)
    ensures Sorted([], cmp)
  {
  }

  lemma {:induction false} ArrangeSorts<T(!new)>(s: seq<T>, cmp: (T, T) -> int)
    requires Orders(cmp)
    ensures Sorted(Arrange(s, cmp), cmp) && multiset(Arrange(s, cmp)) == multiset(s)
  {
    hide Sorted, Orders, Insert;
    if s == [] {
      NothingIsSorted(cmp);
    } else {
      ArrangeSorts(s[1..], cmp);
      InsertSorts(s[0], Arrange(s[1..], cmp), cmp);
      InsertKeeps(s[0], Arrange(s[1..], cmp), cmp);
      assert s == [s[0]] + s[1..];
    }
  }

  /** qsort of the C library: callers learn that the result is a sorted permutation, not which one. */
  method Qsort<T(!new)>(a: array<T>, cmp: (T, T) -> int)
    requires Orders(cmp)
    modifies a
    ensures Sorted(a[..], cmp) && multiset(a[..]) == multiset(old(a[..]))
  {
    var s := Arrange(a[..], cmp);
    ArrangeSorts(a[..], cmp);
    assert |s| == |multiset(s)| == a.Length;
    forall i | 0 <= i < a.Length {
      a[i] := s[i];
    }
    assert a[..] == s;
  }

  // ---------------------------------------------------------------- what a score is

  // Answers by this user that came before the end of the contest, if it has one.
  predicate Counts(a: Answer, id: seq<byte>, endEnabled: bool, endAt: int) {
    a.user == id && !(endEnabled && a.createdAt >= endAt)
  }

  // The distinct challenges among them.
  function Challenges(answers: seq<Answer>, id: seq<byte>, endEnabled: bool, endAt: int): set<int> {
    set a | a in answers && Counts(a, id, endEnabled, endAt) :: a.challenge
  }

  function ScoreOf(answers: seq<Answer>, id: seq<byte>, endEnabled: bool, endAt: int): int {
    100 * |Challenges(answers, id, endEnabled, endAt)|
  }

  function Scored(u: User, answers: seq<Answer>, endEnabled: bool, endAt: int): User {
    u.(score := ScoreOf(answers, u.id, endEnabled, endAt))
  }

  function AllScored(users: seq<User>, answers: seq<Answer>, endEnabled: bool, endAt: int): seq<User> {
    if users == [] then []
    else AllScored(users[..|users| - 1], answers, endEnabled, endAt)
         + [Scored(users[|users| - 1], answers, endEnabled, endAt)]
  }

  predicate UniqueIds(users: seq<User>) {
    forall i, j :: 0 <= i < j < |users| ==> users[i].id != users[j].id
  }

  predicate PositiveChallenges(answers: seq<Answer>) {
    forall k :: 0 <= k < |answers| ==> answers[k].challenge >= 1
  }

  lemma ChallengesSnoc(answers: seq<Answer>, a: Answer, id: seq<byte>, endEnabled: bool, endAt: int)
    ensures Challenges(answers + [a], id, endEnabled, endAt) ==
      Challenges(answers, id, endEnabled, endAt) + if Counts(a, id, endEnabled, endAt) then {a.challenge} else {}
  {
    var all := answers + [a];
    assert forall b :: b in all <==> b in answers || b == a;
  }

  // Answers of others change nothing.
  lemma {:induction false} ChallengesOfPrefix(answers: seq<Answer>, n: nat, id: seq<byte>, endEnabled: bool, endAt: int)
    requires n <= |answers| && forall k :: n <= k < |answers| ==> answers[k].user != id
    ensures Challenges(answers[..n], id, endEnabled, endAt) == Challenges(answers, id, endEnabled, endAt)
    decreases |answers| - n
  {
    if n == |answers| {
      assert answers[..n] == answers;
    } else {
      ChallengesOfPrefix(answers, n + 1, id, endEnabled, endAt);
      assert answers[..n + 1] == answers[..n] + [answers[n]];
      ChallengesSnoc(answers[..n], answers[n], id, endEnabled, endAt);
    }
  }

  // ---------------------------------------------------------------- the merge

  // The greatest challenge that has been counted, 0 while there is none.
  predicate IsLast(last: int, counted: set<int>) {
    if counted == {} then last == 0 else last in counted && forall c :: c in counted ==> c <= last
  }

  lemma GreatestSoFar(answers: seq<Answer>, n: nat, id: seq<byte>, endEnabled: bool, endAt: int)
    requires n < |answers| && Sorted(answers, CompareAnswers) && answers[n].user == id
    ensures forall c :: c in Challenges(answers[..n], id, endEnabled, endAt) ==> c <= answers[n].challenge
  {
    forall c | c in Challenges(answers[..n], id, endEnabled, endAt) ensures c <= answers[n].challenge {
      var a :| a in answers[..n] && Counts(a, id, endEnabled, endAt) && a.challenge == c;
      var k :| 0 <= k < n && answers[..n][k] == a;
      assert CompareAnswers(answers[k], answers[n]) <= 0;
      StrCmpFacts(id, id);
    }
  }

  // One more counted challenge is new exactly when it is not the last one.
  lemma CountOneMore(counted: set<int>, last: int, c: int)
    requires IsLast(last, counted) && c >= 1 && forall d :: d in counted ==> d <= c
    ensures c in counted <==> c == last
    ensures |counted + {c}| == |counted| + if c == last then 0 else 1
    ensures IsLast(c, counted + {c})
  {
    if c in counted {
      assert counted + {c} == counted;
    }
  }

  // An answer of somebody else, or one that came too late.
  lemma SkippedAnswer(answers: seq<Answer>, n: nat, id: seq<byte>, endEnabled: bool, endAt: int)
    requires n < |answers| && !Counts(answers[n], id, endEnabled, endAt)
    ensures Challenges(answers[..n + 1], id, endEnabled, endAt) == Challenges(answers[..n], id, endEnabled, endAt)
  {
    assert answers[..n + 1] == answers[..n] + [answers[n]];
    ChallengesSnoc(answers[..n], answers[n], id, endEnabled, endAt);
    hide Challenges;
    var counted := Challenges(answers[..n], id, endEnabled, endAt);
    assert counted + {} == counted;
  }

  // An answer that counts.
  lemma CountedAnswer(answers: seq<Answer>, n: nat, id: seq<byte>, endEnabled: bool, endAt: int, last: int)
    requires n < |answers| && Sorted(answers, CompareAnswers) && answers[n].challenge >= 1
    requires Counts(answers[n], id, endEnabled, endAt)
    requires IsLast(last, Challenges(answers[..n], id, endEnabled, endAt))
    ensures IsLast(answers[n].challenge, Challenges(answers[..n + 1], id, endEnabled, endAt))
    ensures ScoreOf(answers[..n + 1], id, endEnabled, endAt) ==
      ScoreOf(answers[..n], id, endEnabled, endAt) + if answers[n].challenge == last then 0 else 100
  {
    assert answers[..n + 1] == answers[..n] + [answers[n]];
    ChallengesSnoc(answers[..n], answers[n], id, endEnabled, endAt);
    GreatestSoFar(answers, n, id, endEnabled, endAt);
    hide Challenges, IsLast, Sorted;
    CountOneMore(Challenges(answers[..n], id, endEnabled, endAt), last, answers[n].challenge);
  }

  /** The inner loop: answers up to this user's are passed, this user's are counted. */
  method ScoreUser(users: array<User>, i: nat, answers: array<Answer>, start: nat, endEnabled: bool, endAt: int)
    returns (next: nat)
    requires i < users.Length && start <= answers.Length
    requires Sorted(answers[..], CompareAnswers) && PositiveChallenges(answers[..])
    requires forall k :: 0 <= k < start ==> StrCmp(answers[k].user, users[i].id) < 0
    modifies users
    ensures start <= next <= answers.Length
    ensures users[..] == old(users[..])[i := Scored(old(users[i]), answers[..], endEnabled, endAt)]
    ensures forall k :: 0 <= k < next ==> StrCmp(answers[k].user, old(users[i].id)) <= 0
  {
    hide Challenges, Less, IsLast;
    ghost var before, all, id := users[..], answers[..], users[i].id;
    users[i] := users[i].(score := 0);
    var lastChallenge := 0;
    next := start;
    NoneCounted(all, start, id, endEnabled, endAt);
    assert ScoreOf(all[..next], id, endEnabled, endAt) == 0;
    while next < answers.Length
      invariant start <= next <= answers.Length
      invariant users[..] == before[i := before[i].(score := ScoreOf(all[..next], id, endEnabled, endAt))]
      invariant IsLast(lastChallenge, Challenges(all[..next], id, endEnabled, endAt))
      invariant forall k :: 0 <= k < next ==> StrCmp(all[k].user, id) <= 0
    {
      var answer := answers[next];
      var order := StrCmp(answer.user, users[i].id);
      if order > 0 {
        break;
      }
      StrCmpFacts(answer.user, id);
      next := next + 1;
      if order < 0 || (endEnabled && answer.createdAt >= endAt) {
        SkippedAnswer(all, next - 1, id, endEnabled, endAt);
        continue;
      }
      CountedAnswer(all, next - 1, id, endEnabled, endAt, lastChallenge);
      if answer.challenge != lastChallenge {
        users[i] := users[i].(score := users[i].score + 100);
        lastChallenge := answer.challenge;
      }
    }
    LaterOnesAreOthers(all, next, id);
    ChallengesOfPrefix(all, next, id, endEnabled, endAt);
  }

  lemma NoneCounted(answers: seq<Answer>, n: nat, id: seq<byte>, endEnabled: bool, endAt: int)
    requires n <= |answers| && forall k :: 0 <= k < n ==> StrCmp(answers[k].user, id) < 0
    ensures Challenges(answers[..n], id, endEnabled, endAt) == {}
    ensures IsLast(0, Challenges(answers[..n], id, endEnabled, endAt))
  {
    StrCmpFacts(id, id);
    assert forall a :: a in answers[..n] ==> a.user != id;
  }

  // Behind an answer of a greater user there are only such answers.
  lemma LaterOnesAreOthers(answers: seq<Answer>, n: nat, id: seq<byte>)
    requires n <= |answers| && Sorted(answers, CompareAnswers)
    requires n < |answers| ==> StrCmp(answers[n].user, id) > 0
    ensures forall k :: n <= k < |answers| ==> answers[k].user != id
  {
    forall k | n <= k < |answers| ensures answers[k].user != id {
      StrCmpFacts(answers[n].user, answers[k].user);
      assert k > n ==> CompareAnswers(answers[n], answers[k]) <= 0;
      StrCmpFacts(answers[n].user, id);
    }
  }

  // ---------------------------------------------------------------- the whole calculation

  lemma {:induction false} AllScoredAt(users: seq<User>, answers: seq<Answer>, endEnabled: bool, endAt: int)
    ensures var all := AllScored(users, answers, endEnabled, endAt);
      |all| == |users| && forall i :: 0 <= i < |users| ==> all[i] == Scored(users[i], answers, endEnabled, endAt)
  {
    if users != [] {
      AllScoredAt(users[..|users| - 1], answers, endEnabled, endAt);
    }
  }

  /** The loop over the users, who are sorted by id like the answers: one pass over both arrays. */
  method ScoreUsers(users: array<User>, answers: array<Answer>, endEnabled: bool, endAt: int)
    requires Sorted(users[..], CompareUserIds) && UniqueIds(users[..])
    requires Sorted(answers[..], CompareAnswers) && PositiveChallenges(answers[..])
    modifies users
    ensures users[..] == AllScored(old(users[..]), answers[..], endEnabled, endAt)
  {
    ghost var before, all := users[..], answers[..];
    var answerIndex: nat := 0;
    var i := 0;
    while i < users.Length
      invariant 0 <= i <= users.Length && answerIndex <= answers.Length
      invariant forall j :: 0 <= j < i ==> users[j] == Scored(before[j], all, endEnabled, endAt)
      invariant forall j :: i <= j < users.Length ==> users[j] == before[j]
      invariant i < users.Length ==> forall k :: 0 <= k < answerIndex ==> StrCmp(all[k].user, before[i].id) < 0
    {
      answerIndex := ScoreUser(users, i, answers, answerIndex, endEnabled, endAt);
      if i + 1 < users.Length {
        NextUserIsGreater(before, i);
        forall k | 0 <= k < answerIndex ensures StrCmp(all[k].user, before[i + 1].id) < 0 {
          StrCmpTransitive(all[k].user, before[i].id, before[i + 1].id);
        }
      }
      i := i + 1;
    }
    AllScoredAt(before, all, endEnabled, endAt);
  }

  lemma NextUserIsGreater(users: seq<User>, i: nat)
    requires i + 1 < |users| && Sorted(users, CompareUserIds) && UniqueIds(users)
    ensures StrCmp(users[i].id, users[i + 1].id) < 0
  {
    assert CompareUserIds(users[i], users[i + 1]) <= 0;
    StrCmpFacts(users[i].id, users[i + 1].id);
  }

  // The board lists each user with the right score, the best first and equals by id.
  ghost predicate Board(board: seq<User>, users: seq<User>, answers: seq<Answer>, endEnabled: bool, endAt: int) {
    && Sorted(board, CompareScores)
    && multiset(board) == multiset(AllScored(users, answers, endEnabled, endAt))
  }

  /** calculate_user_scores: every user is on the board once, with a hundred points for each different challenge that
      one of the user's answers solved in time. The higher score stands first, and of equal scores the lower id. */
  method CalculateUserScores(users: array<User>, answers: array<Answer>, endEnabled: bool, endAt: int)
    requires UniqueIds(users[..]) && PositiveChallenges(answers[..])
    modifies users, answers
    ensures Board(users[..], old(users[..]), old(answers[..]), endEnabled, endAt)
    ensures multiset(answers[..]) == multiset(old(answers[..]))
    ensures forall u :: u in old(users[..]) ==>
      User(u.id, u.username, 100 * |set a | a in old(answers[..]) && a.user == u.id
                                            && (!endEnabled || a.createdAt < endAt) :: a.challenge|) in users[..]
    ensures forall i, j :: 0 <= i < j < users.Length ==>
      users[i].score > users[j].score
      || (users[i].score == users[j].score && ComesFirst(users[i].id, users[j].id))
  {
    ghost var us, all := users[..], answers[..];
    FillBoard(users, answers, endEnabled, endAt);
    BoardLists(users[..], us, all, endEnabled, endAt);
    BoardDescends(users[..], us, all, endEnabled, endAt);
  }

  method FillBoard(users: array<User>, answers: array<Answer>, endEnabled: bool, endAt: int)
    requires UniqueIds(users[..]) && PositiveChallenges(answers[..])
    modifies users, answers
    ensures Board(users[..], old(users[..]), old(answers[..]), endEnabled, endAt)
    ensures multiset(answers[..]) == multiset(old(answers[..]))
  {
    ghost var us, all := users[..], answers[..];
    if users.Length > 1 {
      UserIdsOrder();
      Qsort(users, CompareUserIds);
    }
    if answers.Length > 1 {
      AnswersOrder();
      Qsort(answers, CompareAnswers);
    }
    ghost var byId, sorted := users[..], answers[..];
    PermutedUniqueIds(us, byId);
    PermutedPositive(all, sorted);
    ScoreUsers(users, answers, endEnabled, endAt);
    PermutedScores(us, byId, all, sorted, endEnabled, endAt);
    if users.Length > 1 {
      ScoresOrder();
      Qsort(users, CompareScores);
    }
  }

  lemma BoardLists(board: seq<User>, users: seq<User>, answers: seq<Answer>, endEnabled: bool, endAt: int)
    requires multiset(board) == multiset(AllScored(users, answers, endEnabled, endAt))
    ensures forall u :: u in users ==>
      User(u.id, u.username, 100 * |set a | a in answers && a.user == u.id
                                            && (!endEnabled || a.createdAt < endAt) :: a.challenge|) in board
  {
    var all := AllScored(users, answers, endEnabled, endAt);
    AllScoredAt(users, answers, endEnabled, endAt);
    SameElements(board, all);
    forall u | u in users
      ensures User(u.id, u.username, 100 * |set a | a in answers && a.user == u.id
                                              && (!endEnabled || a.createdAt < endAt) :: a.challenge|) in board
    {
      var i :| 0 <= i < |users| && users[i] == u;
      assert all[i] in all;
      assert Challenges(answers, u.id, endEnabled, endAt)
          == set a | a in answers && a.user == u.id && (!endEnabled || a.createdAt < endAt) :: a.challenge;
    }
  }

  lemma BoardDescends(board: seq<User>, users: seq<User>, answers: seq<Answer>, endEnabled: bool, endAt: int)
    requires UniqueIds(users) && Board(board, users, answers, endEnabled, endAt)
    ensures forall i, j :: 0 <= i < j < |board| ==>
      board[i].score > board[j].score || (board[i].score == board[j].score && ComesFirst(board[i].id, board[j].id))
  {
    UniqueOnBoard(board, users, answers, endEnabled, endAt);
    forall i, j | 0 <= i < j < |board|
      ensures board[i].score > board[j].score
        || (board[i].score == board[j].score && ComesFirst(board[i].id, board[j].id))
    {
      assert CompareScores(board[i], board[j]) <= 0;
      StrCmpFacts(board[i].id, board[j].id);
      LessIsFirst(board[i].id, board[j].id);
    }
  }

  lemma UniqueOnBoard(board: seq<User>, users: seq<User>, answers: seq<Answer>, endEnabled: bool, endAt: int)
    requires UniqueIds(users) && multiset(board) == multiset(AllScored(users, answers, endEnabled, endAt))
    ensures UniqueIds(board)
  {
    var all := AllScored(users, answers, endEnabled, endAt);
    AllScoredAt(users, answers, endEnabled, endAt);
    PermutedUniqueIds(all, board);
  }

  // ---------------------------------------------------------------- independence of the order

  lemma SameElements<T>(a: seq<T>, b: seq<T>)
    requires multiset(a) == multiset(b)
    ensures |a| == |b| && forall x :: x in a <==> x in b
  {
    assert |multiset(a)| == |a| && |multiset(b)| == |b|;
    assert forall x :: x in a <==> x in multiset(a);
    assert forall x :: x in b <==> x in multiset(b);
  }

  lemma PermutedPositive(a: seq<Answer>, b: seq<Answer>)
    requires multiset(a) == multiset(b) && PositiveChallenges(a)
    ensures PositiveChallenges(b)
  {
    SameElements(a, b);
    assert forall k :: 0 <= k < |b| ==> b[k] in b && b[k] in a;
  }

  // The score depends on which answers there are, not on their order or number.
  lemma PermutedChallenges(a: seq<Answer>, b: seq<Answer>, id: seq<byte>, endEnabled: bool, endAt: int)
    requires multiset(a) == multiset(b)
    ensures Challenges(a, id, endEnabled, endAt) == Challenges(b, id, endEnabled, endAt)
  {
    SameElements(a, b);
  }

  lemma {:induction false} DistinctMultiset<T(!new)>(s: seq<T>)
    ensures (forall i, j :: 0 <= i < j < |s| ==> s[i] != s[j]) <==> (forall x :: multiset(s)[x] <= 1)
  {
    if s != [] {
      var h, t := s[0], s[1..];
      assert s == [h] + t;
      DistinctMultiset(t);
      assert multiset(s) == multiset(t) + multiset{h};
      assert forall j :: 0 < j < |s| ==> s[j] == t[j - 1];
      assert forall x :: x in t <==> multiset(t)[x] >= 1;
      if forall x :: multiset(s)[x] <= 1 {
        assert multiset(s)[h] <= 1;
        assert h !in t;
        assert forall x :: multiset(t)[x] <= multiset(s)[x];
      }
    }
  }

  // Ids are unique when no user is listed twice and no two users share an id.
  lemma UniqueByElements(users: seq<User>)
    ensures UniqueIds(users) <==>
      (forall x :: multiset(users)[x] <= 1) && (forall x, y :: x in users && y in users && x.id == y.id ==> x == y)
  {
    DistinctMultiset(users);
    if UniqueIds(users) {
      forall x, y | x in users && y in users && x.id == y.id ensures x == y {
        var i :| 0 <= i < |users| && users[i] == x;
        var j :| 0 <= j < |users| && users[j] == y;
      }
    } else {
      var i, j :| 0 <= i < j < |users| && users[i].id == users[j].id;
      assert users[i] in users && users[j] in users;
    }
  }

  lemma PermutedUniqueIds(a: seq<User>, b: seq<User>)
    requires multiset(a) == multiset(b) && UniqueIds(a)
    ensures UniqueIds(b)
  {
    SameElements(a, b);
    UniqueByElements(a);
    UniqueByElements(b);
  }

  lemma RemoveScored(users: seq<User>, i: nat, answers: seq<Answer>, endEnabled: bool, endAt: int)
    requires i < |users|
    ensures multiset(AllScored(users, answers, endEnabled, endAt)) ==
      multiset(AllScored(users[..i] + users[i + 1..], answers, endEnabled, endAt))
      + multiset{Scored(users[i], answers, endEnabled, endAt)}
  {
    var rest := users[..i] + users[i + 1..];
    var all, others := AllScored(users, answers, endEnabled, endAt), AllScored(rest, answers, endEnabled, endAt);
    AllScoredAt(users, answers, endEnabled, endAt);
    AllScoredAt(rest, answers, endEnabled, endAt);
    RemoveAt(all, i);
    assert others == all[..i] + all[i + 1..];
  }

  lemma {:induction false} PermutedUsers(a: seq<User>, b: seq<User>, answers: seq<Answer>, endEnabled: bool, endAt: int)
    requires multiset(a) == multiset(b)
    ensures multiset(AllScored(a, answers, endEnabled, endAt)) == multiset(AllScored(b, answers, endEnabled, endAt))
    decreases |a|
  {
    hide AllScored;
    SameElements(a, b);
    if a == [] {
      assert b == [];
    } else {
      assert a[0] in b;
      var i :| 0 <= i < |b| && b[i] == a[0];
      var others, rest := a[..0] + a[1..], b[..i] + b[i + 1..];
      RemoveAt(a, 0);
      RemoveAt(b, i);
      LessOne(multiset(others), multiset(rest), a[0]);
      RemoveScored(a, 0, answers, endEnabled, endAt);
      RemoveScored(b, i, answers, endEnabled, endAt);
      PermutedUsers(others, rest, answers, endEnabled, endAt);
    }
  }

  lemma LessOne<T>(a: multiset<T>, b: multiset<T>, x: T)
    requires a + multiset{x} == b + multiset{x}
    ensures a == b
  {
    assert (a + multiset{x}) - multiset{x} == a && (b + multiset{x}) - multiset{x} == b;
  }

  lemma PermutedScores(users: seq<User>, users2: seq<User>, answers: seq<Answer>, answers2: seq<Answer>,
                       endEnabled: bool, endAt: int)
    requires multiset(users) == multiset(users2) && multiset(answers) == multiset(answers2)
    ensures multiset(AllScored(users, answers, endEnabled, endAt))
         == multiset(AllScored(users2, answers2, endEnabled, endAt))
  {
    PermutedUsers(users, users2, answers, endEnabled, endAt);
    AllScoredAt(users2, answers, endEnabled, endAt);
    AllScoredAt(users2, answers2, endEnabled, endAt);
    forall i | 0 <= i < |users2|
      ensures AllScored(users2, answers, endEnabled, endAt)[i] == AllScored(users2, answers2, endEnabled, endAt)[i]
    {
      PermutedChallenges(answers, answers2, users2[i].id, endEnabled, endAt);
    }
    assert AllScored(users2, answers, endEnabled, endAt) == AllScored(users2, answers2, endEnabled, endAt);
  }

  // No two different elements are equal in the order.
  ghost predicate Antisymmetric<T(!new)>(s: seq<T>, cmp: (T, T) -> int) {
    forall x, y :: x in s && y in s && cmp(x, y) <= 0 && cmp(y, x) <= 0 ==> x == y
  }

  lemma SameFirst<T(!new)>(a: seq<T>, b: seq<T>, cmp: (T, T) -> int)
    requires a != [] && multiset(a) == multiset(b) && Sorted(a, cmp) && Sorted(b, cmp) && Antisymmetric(a, cmp)
    ensures b != [] && a[0] == b[0]
  {
    SameElements(a, b);
    assert a[0] in b && b[0] in a;
    var i :| 0 <= i < |b| && b[i] == a[0];
    var j :| 0 <= j < |a| && a[j] == b[0];
  }

  lemma RestSorted<T(!new)>(s: seq<T>, cmp: (T, T) -> int)
    requires s != [] && Sorted(s, cmp)
    ensures Sorted(s[1..], cmp) && s == [s[0]] + s[1..]
    ensures Antisymmetric(s, cmp) ==> Antisymmetric(s[1..], cmp)
  {
    assert forall x :: x in s[1..] ==> x in s;
  }

  // Of such elements only one arrangement is sorted.
  lemma {:induction false} SortedUnique<T(!new)>(a: seq<T>, b: seq<T>, cmp: (T, T) -> int)
    requires multiset(a) == multiset(b) && Sorted(a, cmp) && Sorted(b, cmp) && Antisymmetric(a, cmp)
    ensures a == b
    decreases |a|
  {
    hide Sorted, Antisymmetric;
    SameElements(a, b);
    if a != [] {
      SameFirst(a, b, cmp);
      RestSorted(a, cmp);
      RestSorted(b, cmp);
      assert multiset(a) == multiset(a[1..]) + multiset{a[0]} && multiset(b) == multiset(b[1..]) + multiset{a[0]};
      LessOne(multiset(a[1..]), multiset(b[1..]), a[0]);
      SortedUnique(a[1..], b[1..], cmp);
    }
  }

  lemma NoTies(users: seq<User>, answers: seq<Answer>, endEnabled: bool, endAt: int, x: User, y: User)
    requires UniqueIds(users)
    requires x in AllScored(users, answers, endEnabled, endAt) && y in AllScored(users, answers, endEnabled, endAt)
    requires CompareScores(x, y) <= 0 && CompareScores(y, x) <= 0
    ensures x == y
  {
    var all := AllScored(users, answers, endEnabled, endAt);
    AllScoredAt(users, answers, endEnabled, endAt);
    StrCmpFacts(x.id, y.id);
    StrCmpFacts(y.id, x.id);
    var i :| 0 <= i < |all| && all[i] == x;
    var j :| 0 <= j < |all| && all[j] == y;
  }

  /** The board is the same for every order of the users and the answers, and for every way of sorting. */
  lemma BoardIsUnique(board: seq<User>, board2: seq<User>, users: seq<User>, users2: seq<User>,
                      answers: seq<Answer>, answers2: seq<Answer>, endEnabled: bool, endAt: int)
    requires UniqueIds(users) && multiset(users) == multiset(users2) && multiset(answers) == multiset(answers2)
    requires Board(board, users, answers, endEnabled, endAt) && Board(board2, users2, answers2, endEnabled, endAt)
    ensures board == board2
  {
    PermutedScores(users, users2, answers, answers2, endEnabled, endAt);
    var all := AllScored(users, answers, endEnabled, endAt);
    SameElements(board, all);
    forall x, y | x in board && y in board && CompareScores(x, y) <= 0 && CompareScores(y, x) <= 0 ensures x == y {
      NoTies(users, answers, endEnabled, endAt, x, y);
    }
    SortedUnique(board, board2, CompareScores);
  }

  lemma {:induction false} AtMost(s: set<int>, n: nat)
    requires forall c :: c in s ==> 1 <= c <= n
    ensures |s| <= n
    decreases n
  {
    if n == 0 {
      assert forall c :: c !in s;
    } else {
      AtMost(s - {n}, n - 1);
      assert s <= (s - {n}) + {n};
      if n in s {
        assert |s| == |s - {n}| + 1;
      } else {
        assert s - {n} == s;
      }
    }
  }

  /** With the challenge ids the repository hands over, the score stays far from the limit of its 64 bits. */
  lemma ScoreFits(answers: seq<Answer>, id: seq<byte>, endEnabled: bool, endAt: int)
    requires forall k :: 0 <= k < |answers| ==> 1 <= answers[k].challenge <= INT_MAX
    ensures 0 <= ScoreOf(answers, id, endEnabled, endAt) <= 100 * INT_MAX
  {
    AtMost(Challenges(answers, id, endEnabled, endAt), INT_MAX);
  }
}
