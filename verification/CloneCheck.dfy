/** Cloning a schedule for the stress test: K copies with strided ids, and what the
    validator makes of them. */
module CloneCheck {
  import opened Sequences
  import opened Numerals
  import opened XerCheck

  const STRIDE := 10_000_000

  /** A printed id below the stride. */
  predicate Canonical(id: string) {
    AllDigits(id) && id == Dec(Value(id)) && Value(id) < STRIDE
  }

  /** The id of clone `k`; an empty cell stays empty. */
  function Shift(k: nat, id: string): string {
    if id != "" && AllDigits(id) then Dec(Value(id) + k * STRIDE) else id
  }

  /** The activity code of clone `k`, suffixed past the first. */
  function Coded(k: nat, code: string): string {
    if k > 0 then code + "C" + Padded(k, 2) else code
  }

  function CloneTask(k: nat): Task -> Task {
    (t: Task) => t.(id := Shift(k, t.id), code := Coded(k, t.code))
  }

  function ClonePred(k: nat): Pred -> Pred {
    (p: Pred) => p.(task := Shift(k, p.task), pred := Shift(k, p.pred))
  }

  function CloneAssign(k: nat): Assign -> Assign {
    (a: Assign) => a.(task := Shift(k, a.task))
  }

  function CloneUdf(k: nat): Udf -> Udf {
    (u: Udf) => u.(fk := Shift(k, u.fk))
  }

  /** Clones `k` up to `n` of a table's rows, one whole copy after another. */
  function Copies<A>(clone: nat -> (A -> A), s: seq<A>, k: nat, n: nat): seq<A>
    decreases n - k
  {
    if k >= n then [] else Map(clone(k), s) + Copies(clone, s, k + 1, n)
  }

  function CloneSchedule(s: Schedule, n: nat): Schedule {
    s.(tasks := Copies(CloneTask, s.tasks, 0, n), preds := Copies(ClonePred, s.preds, 0, n),
       assigns := Copies(CloneAssign, s.assigns, 0, n), udfs := Copies(CloneUdf, s.udfs, 0, n))
  }

  /** Task ids are printed numbers below the stride, and so is every reference to one
      that is not left empty. */
  ghost predicate CanonicalIds(s: Schedule) {
    && (forall t :: t in s.tasks ==> Canonical(t.id))
    && (forall p :: p in s.preds ==> Reference(p.task) && Reference(p.pred))
    && (forall a :: a in s.assigns ==> Reference(a.task))
    && (forall u :: u in s.udfs ==> Reference(u.fk))
  }

  predicate Reference(id: string) {
    id == "" || Canonical(id)
  }

  // ----- Copies ---------------------------------------------------------------------

  lemma {:induction false} CopiesAre<A(!new)>(clone: nat -> (A -> A), s: seq<A>, k: nat, n: nat, y: A)
    ensures y in Copies(clone, s, k, n) <==> exists j, i :: k <= j < n && 0 <= i < |s| && y == clone(j)(s[i])
    decreases n - k
  {
    if k < n {
      CopiesAre(clone, s, k + 1, n, y);
      if y in Map(clone(k), s) {
        var i :| 0 <= i < |s| && Map(clone(k), s)[i] == y;
        assert y == clone(k)(s[i]);
      }
      if i :| 0 <= i < |s| && y == clone(k)(s[i]) {
        assert Map(clone(k), s)[i] == y;
      }
    }
  }

  /** A check that says the same of every copy of a row as of the row says the same of
      the cloned table as of the base. */
  lemma SectionSame<A(!new)>(clone: nat -> (A -> A), s: seq<A>, n: nat, after: A -> bool, before: A -> bool)
    requires n >= 1
    requires forall k, x :: 0 <= k < n && x in s ==> (after(clone(k)(x)) <==> before(x))
    ensures (forall y :: y in Copies(clone, s, 0, n) ==> after(y)) <==> (forall x :: x in s ==> before(x))
  {
    hide Copies;
    if forall y :: y in Copies(clone, s, 0, n) ==> after(y) {
      forall x | x in s ensures before(x) {
        CopyIsThere(clone, s, 0, n, x);
        assert after(clone(0)(x));
      }
    }
    if forall x :: x in s ==> before(x) {
      forall y | y in Copies(clone, s, 0, n) ensures after(y) {
        var k, x := CopyOf(clone, s, n, y);
      }
    }
  }

  lemma CopyIsThere<A(!new)>(clone: nat -> (A -> A), s: seq<A>, k: nat, n: nat, x: A)
    requires k < n && x in s
    ensures clone(k)(x) in Copies(clone, s, 0, n)
  {
    var i :| 0 <= i < |s| && s[i] == x;
    CopiesAre(clone, s, 0, n, clone(k)(x));
    hide Copies;
    assert clone(k)(x) == clone(k)(s[i]);
  }

  lemma CopyOf<A(!new)>(clone: nat -> (A -> A), s: seq<A>, n: nat, y: A) returns (k: nat, x: A)
    requires y in Copies(clone, s, 0, n)
    ensures k < n && x in s && y == clone(k)(x)
  {
    CopiesAre(clone, s, 0, n, y);
    var j, i :| 0 <= j < n && 0 <= i < |s| && y == clone(j)(s[i]);
    k, x := j, s[i];
  }

  lemma {:induction false} MapCopies<A, B>(f: A -> B, a: nat -> (A -> A), b: nat -> (B -> B), s: seq<A>, k: nat, n: nat)
    requires forall j: nat, x :: x in s ==> f(a(j)(x)) == b(j)(f(x))
    ensures Map(f, Copies(a, s, k, n)) == Copies(b, Map(f, s), k, n)
    decreases n - k
  {
    if k < n {
      MapCopies(f, a, b, s, k + 1, n);
      forall i | 0 <= i < |s| ensures Map(f, Map(a(k), s))[i] == Map(b(k), Map(f, s))[i] {
        assert s[i] in s;
      }
      assert Map(f, Map(a(k), s)) == Map(b(k), Map(f, s));
      hide Copies;
      var head, rest := Map(a(k), s), Copies(a, s, k + 1, n);
      assert Map(f, head + rest) == Map(f, head) + Map(f, rest);
    } else {
      assert Map(f, Copies(a, s, k, n)) == [];
    }
  }

  // ----- Ids ---------------------------------------------------------------------------

  lemma ShiftValue(k: nat, id: string)
    requires Canonical(id)
    ensures AllDigits(Shift(k, id)) && Value(Shift(k, id)) == Value(id) + k * STRIDE
  {
    ValueOfDec(Value(id) + k * STRIDE);
  }

  /** No id is shared, within a clone or between two. */
  lemma ShiftInjective(j: nat, a: string, k: nat, b: string)
    requires Canonical(a) && Canonical(b)
    ensures Shift(j, a) == Shift(k, b) <==> j == k && a == b
  {
    ShiftValue(j, a);
    ShiftValue(k, b);
    if Shift(j, a) == Shift(k, b) {
      SameStride(j, Value(a), k, Value(b));
    }
  }

  lemma SameStride(j: nat, a: nat, k: nat, b: nat)
    requires a < STRIDE && b < STRIDE && a + j * STRIDE == b + k * STRIDE
    ensures j == k && a == b
  {
    assert (a + j * STRIDE) / STRIDE == j && (b + k * STRIDE) / STRIDE == k;
  }

  lemma ShiftNonEmpty(k: nat, id: string)
    requires Canonical(id)
    ensures Shift(k, id) != "" && id != ""
  {
  }

  // ----- Looking a task up in the clones ---------------------------------------------------

  lemma TaskMapSnoc(tasks: seq<Task>, last: Task)
    ensures TaskMap(tasks + [last]) == TaskMap(tasks)[last.id := last]
  {
    assert (tasks + [last])[..|tasks|] == tasks;
  }

  lemma {:induction false} TaskMapAppend(a: seq<Task>, b: seq<Task>, id: string)
    ensures id in TaskMap(a + b) <==> id in TaskMap(a) || id in TaskMap(b)
    ensures id in TaskMap(b) ==> TaskMap(a + b)[id] == TaskMap(b)[id]
    ensures id in TaskMap(a) && id !in TaskMap(b) ==> TaskMap(a + b)[id] == TaskMap(a)[id]
  {
    hide TaskMap;
    if b == [] {
      NoTasks();
      assert a + b == a;
    } else {
      var n := |b| - 1;
      TaskMapAppend(a, b[..n], id);
      TaskMapSnoc(b[..n], b[n]);
      TaskMapSnoc(a + b[..n], b[n]);
      assert b == b[..n] + [b[n]] && a + b == a + b[..n] + [b[n]];
    }
  }

  /** Looking `id` up in one copy finds the copy of what the base holds under it. */
  lemma {:induction false} TaskMapCopy(tasks: seq<Task>, k: nat, id: string)
    requires (forall t :: t in tasks ==> Canonical(t.id)) && Canonical(id)
    ensures Shift(k, id) in TaskMap(Map(CloneTask(k), tasks)) <==> id in TaskMap(tasks)
    ensures id in TaskMap(tasks) ==> TaskMap(Map(CloneTask(k), tasks))[Shift(k, id)] == CloneTask(k)(TaskMap(tasks)[id])
  {
    hide Canonical, Shift, Coded;
    if tasks != [] {
      var n := |tasks| - 1;
      var before, last := tasks[..n], tasks[n];
      TaskMapCopy(before, k, id);
      ShiftInjective(k, last.id, k, id);
      assert Map(CloneTask(k), tasks)[..n] == Map(CloneTask(k), before);
      assert CloneTask(k)(last).id == Shift(k, last.id) by { CloneTaskId(k, last); }
      hide CloneTask;
    }
  }

  lemma CloneTaskId(k: nat, t: Task)
    ensures CloneTask(k)(t).id == Shift(k, t.id)
  {
  }

  lemma {:induction false} TaskMapCopies(tasks: seq<Task>, k: nat, n: nat, j: nat, id: string)
    requires (forall t :: t in tasks ==> Canonical(t.id)) && Canonical(id)
    ensures Shift(j, id) in TaskMap(Copies(CloneTask, tasks, k, n)) <==> k <= j < n && id in TaskMap(tasks)
    ensures k <= j < n && id in TaskMap(tasks) ==>
              TaskMap(Copies(CloneTask, tasks, k, n))[Shift(j, id)] == CloneTask(j)(TaskMap(tasks)[id])
    decreases n - k
  {
    CopiesUnfold(tasks, k, n);
    hide Canonical, Shift, Coded, TaskMap, CloneTask, Copies;
    if k < n {
      TaskMapCopies(tasks, k + 1, n, j, id);
      TaskMapAppend(Map(CloneTask(k), tasks), Copies(CloneTask, tasks, k + 1, n), Shift(j, id));
      if j == k {
        TaskMapCopy(tasks, k, id);
      } else {
        NotInCopy(tasks, k, j, id);
      }
    } else {
      NoTasks();
    }
  }

  lemma CopiesUnfold(tasks: seq<Task>, k: nat, n: nat)
    ensures Copies(CloneTask, tasks, k, n) ==
            if k >= n then [] else Map(CloneTask(k), tasks) + Copies(CloneTask, tasks, k + 1, n)
  {
  }

  lemma NoTasks()
    ensures TaskMap([]) == map[]
  {
  }

  lemma NotInCopy(tasks: seq<Task>, k: nat, j: nat, id: string)
    requires (forall t :: t in tasks ==> Canonical(t.id)) && Canonical(id) && j != k
    ensures Shift(j, id) !in TaskMap(Map(CloneTask(k), tasks))
  {
    hide Canonical, Shift, Coded, TaskMap;
    var copy := Map(CloneTask(k), tasks);
    forall i | 0 <= i < |copy| ensures copy[i].id != Shift(j, id) {
      CloneTaskId(k, tasks[i]);
      ShiftInjective(k, tasks[i].id, j, id);
    }
  }

  /** Within the clones a reference resolves exactly when it did in the base, and then to
      its own clone's copy of the task it named. */
  lemma ResolvesInOwnClone(s: Schedule, n: nat, k: nat, id: string)
    requires CanonicalIds(s) && Reference(id) && k < n
    ensures HasTask(CloneSchedule(s, n), Shift(k, id)) <==> HasTask(s, id)
    ensures HasTask(s, id) ==> TaskMap(CloneSchedule(s, n).tasks)[Shift(k, id)] == CloneTask(k)(TaskMap(s.tasks)[id])
  {
    hide Canonical, Copies, TaskMap, CloneTask;
    if id == "" {
      NoEmptyId(s.tasks);
      NoEmptyClone(s.tasks, n);
    } else {
      TaskMapCopies(s.tasks, 0, n, k, id);
    }
  }

  lemma NoEmptyId(tasks: seq<Task>)
    requires forall t :: t in tasks ==> Canonical(t.id)
    ensures "" !in TaskMap(tasks)
  {
    hide TaskMap;
    forall i | 0 <= i < |tasks| ensures tasks[i].id != "" {
      assert tasks[i] in tasks;
    }
  }

  lemma NoEmptyClone(tasks: seq<Task>, n: nat)
    requires forall t :: t in tasks ==> Canonical(t.id)
    ensures "" !in TaskMap(Copies(CloneTask, tasks, 0, n))
  {
    hide TaskMap, Canonical, Shift, Coded;
    var all := Copies(CloneTask, tasks, 0, n);
    forall m | 0 <= m < |all| ensures all[m].id != "" {
      CopiesAre(CloneTask, tasks, 0, n, all[m]);
      var j, i :| 0 <= j < n && 0 <= i < |tasks| && all[m] == CloneTask(j)(tasks[i]);
      ShiftNonEmpty(j, tasks[i].id);
    }
  }

  function Shifted(k: nat): string -> string {
    (id: string) => Shift(k, id)
  }

  /** Copies of distinct rows are distinct where no two of them coincide. */
  lemma {:induction false} CopiesDistinct<A(!new)>(clone: nat -> (A -> A), s: seq<A>, k: nat, n: nat)
    requires NoDup(s)
    requires forall i: nat, j: nat, x, y ::
               x in s && y in s && k <= i < n && k <= j < n && clone(i)(x) == clone(j)(y) ==> i == j && x == y
    ensures NoDup(Copies(clone, s, k, n))
    decreases n - k
  {
    if k < n {
      var copy, rest := Map(clone(k), s), Copies(clone, s, k + 1, n);
      CopiesDistinct(clone, s, k + 1, n);
      forall a, b | 0 <= a < b < |copy| ensures copy[a] != copy[b] {
        assert s[a] in s && s[b] in s && copy[a] == clone(k)(s[a]) && copy[b] == clone(k)(s[b]);
      }
      forall y | y in copy ensures y !in rest {
        var a :| 0 <= a < |s| && copy[a] == y;
        CopiesAre(clone, s, k + 1, n, y);
        assert s[a] in s && y == clone(k)(s[a]);
        forall j: nat, b | k + 1 <= j < n && 0 <= b < |s| ensures y != clone(j)(s[b]) {
          assert s[b] in s;
        }
      }
      hide Copies;
      NoDupConcat(copy, rest);
    }
  }

  /** Distinct ids stay distinct over all the clones. */
  lemma IdsStayDistinct(ids: seq<string>, k: nat, n: nat)
    requires NoDup(ids) && forall id :: id in ids ==> Canonical(id)
    ensures NoDup(Copies(Shifted, ids, k, n))
  {
    hide Canonical, Shift, Copies;
    forall i: nat, j: nat, x, y | x in ids && y in ids && Shifted(i)(x) == Shifted(j)(y) ensures i == j && x == y {
      ShiftInjective(i, x, j, y);
    }
    CopiesDistinct(Shifted, ids, k, n);
  }

  // ----- Codes -------------------------------------------------------------------------------

  /** How a clone's code is spelled: the base's, a C, and the clone's number in two digits
      or as many as it takes. */
  lemma CodedSpells(k: nat, code: string)
    requires k > 0
    ensures var s, n := Coded(k, code), |code|;
            && |s| >= n + 3 && s[..n] == code && s[n] == 'C' && AllDigits(s[n + 1..]) && Value(s[n + 1..]) == k
            && (k < 100 ==> |s| == n + 3)
  {
    PaddedIs(k, 2);
    DecLength(k);
    hide Padded, Value;
    var s, n := Coded(k, code), |code|;
    assert s == code + "C" + Padded(k, 2);
    assert s[n + 1..] == Padded(k, 2);
  }

  lemma DecLength(k: nat)
    ensures k < 100 ==> |Dec(k)| <= 2
  {
  }

  /** Past the first copy no code is shared, within a clone or between two, whatever the
      base's codes are. */
  lemma CodedInjective(j: nat, a: string, k: nat, b: string)
    requires j > 0 && k > 0
    ensures Coded(j, a) == Coded(k, b) <==> j == k && a == b
  {
    CodedSpells(j, a);
    CodedSpells(k, b);
    hide Coded, Value;
    if Coded(j, a) == Coded(k, b) {
      var s := Coded(j, a);
      SuffixStart(s, |a|, |b|);
      SuffixStart(s, |b|, |a|);
    }
  }

  lemma SuffixStart(s: string, m: nat, n: nat)
    requires m < |s| && n < |s| && s[n] == 'C' && AllDigits(s[m + 1..])
    ensures n <= m
  {
    if m < n {
      SuffixDigit(s, m, n);
    }
  }

  lemma SuffixDigit(s: string, m: nat, n: nat)
    requires m < n < |s| && AllDigits(s[m + 1..])
    ensures IsDigit(s[n])
  {
    assert s[m + 1..][n - m - 1] == s[n];
  }

  function CodedAs(k: nat): string -> string {
    (code: string) => Coded(k, code)
  }

  /** No base code is spelled like another's clone. */
  predicate CodesApart(codes: seq<string>, n: nat) {
    forall a, b, k :: a in codes && b in codes && 1 <= k < n ==> a != Coded(k, b)
  }

  /** Codes stay distinct over all the clones if and only if they are distinct in the base
      and none is spelled like the clone of another. */
  lemma CodesStayDistinctIff(codes: seq<string>, n: nat)
    requires n >= 1
    ensures NoDup(Copies(CodedAs, codes, 0, n)) <==> NoDup(codes) && CodesApart(codes, n)
  {
    FirstCopy(codes, n);
    hide Coded, Copies, CodesApart;
    if NoDup(codes) && CodesApart(codes, n) {
      ApartStayDistinct(codes, n);
    }
    if NoDup(codes + Copies(CodedAs, codes, 1, n)) {
      DistinctAreApart(codes, n);
    }
  }

  lemma ApartStayDistinct(codes: seq<string>, n: nat)
    requires NoDup(codes) && CodesApart(codes, n)
    ensures NoDup(Copies(CodedAs, codes, 0, n))
  {
    hide Coded, Copies, CodesApart;
    forall i: nat, j: nat, a, b | a in codes && b in codes && i < n && j < n && CodedAs(i)(a) == CodedAs(j)(b)
      ensures i == j && a == b
    {
      SameCode(codes, n, i, a, j, b);
    }
    CopiesDistinct(CodedAs, codes, 0, n);
  }

  lemma SameCode(codes: seq<string>, n: nat, i: nat, a: string, j: nat, b: string)
    requires CodesApart(codes, n) && a in codes && b in codes && i < n && j < n && Coded(i, a) == Coded(j, b)
    ensures i == j && a == b
  {
    FirstCoded(a);
    FirstCoded(b);
    hide Coded;
    if i > 0 && j > 0 {
      CodedInjective(i, a, j, b);
    }
  }

  lemma DistinctAreApart(codes: seq<string>, n: nat)
    requires NoDup(codes + Copies(CodedAs, codes, 1, n))
    ensures NoDup(codes) && CodesApart(codes, n)
  {
    var rest := Copies(CodedAs, codes, 1, n);
    hide Coded, Copies;
    forall i, j | 0 <= i < j < |codes| ensures codes[i] != codes[j] {
      assert (codes + rest)[i] != (codes + rest)[j];
    }
    forall a, b, k | a in codes && b in codes && 1 <= k < n ensures a != Coded(k, b) {
      var i :| 0 <= i < |codes| && codes[i] == a;
      CodeInRest(codes, n, k, b);
      var m :| 0 <= m < |rest| && rest[m] == Coded(k, b);
      assert (codes + rest)[i] == a && (codes + rest)[|codes| + m] == Coded(k, b);
    }
  }

  lemma CodeInRest(codes: seq<string>, n: nat, k: nat, b: string)
    requires b in codes && 1 <= k < n
    ensures Coded(k, b) in Copies(CodedAs, codes, 1, n)
  {
    var j :| 0 <= j < |codes| && codes[j] == b;
    hide Coded;
    assert Coded(k, b) == CodedAs(k)(codes[j]);
    CopiesAre(CodedAs, codes, 1, n, Coded(k, b));
  }

  lemma FirstCoded(code: string)
    ensures Coded(0, code) == code
  {
  }

  lemma FirstCopy(codes: seq<string>, n: nat)
    requires n >= 1
    ensures Copies(CodedAs, codes, 0, n) == codes + Copies(CodedAs, codes, 1, n)
  {
    assert Map(CodedAs(0), codes) == codes;
  }

  /** A code without a C past its first place, as `A00030` is. */
  predicate PlainCode(code: string) {
    code != "" && forall i :: 1 <= i < |code| ==> code[i] != 'C'
  }

  lemma PlainCodesApart(codes: seq<string>, n: nat)
    requires forall c :: c in codes ==> PlainCode(c)
    ensures CodesApart(codes, n)
  {
    hide Coded, Value;
    forall a, b, k | a in codes && b in codes && 1 <= k < n ensures a != Coded(k, b) {
      CodedSpells(k, b);
      assert PlainCode(a) && PlainCode(b);
    }
  }

  function CodesOf(s: Schedule): seq<string> {
    Map((t: Task) => t.code, s.tasks)
  }

  /** The activity codes of a cloned schedule are distinct exactly when the base's are and
      none of them is spelled like the clone of another. */
  lemma CloneCodesDistinctIff(s: Schedule, n: nat)
    requires n >= 1
    ensures NoDup(CodesOf(CloneSchedule(s, n))) <==> NoDup(CodesOf(s)) && CodesApart(CodesOf(s), n)
  {
    var code := (t: Task) => t.code;
    hide Coded, Copies, Shift;
    MapCopies(code, CloneTask, CodedAs, s.tasks, 0, n);
    assert CodesOf(s) == Map(code, s.tasks) && CodesOf(CloneSchedule(s, n)) == Map(code, CloneSchedule(s, n).tasks);
    CodesStayDistinctIff(CodesOf(s), n);
  }

  // ----- What the validator says of the clones ----------------------------------------------

  lemma TaskVerdictSame(s: Schedule, n: nat, k: nat, t: Task)
    ensures TaskRefs(CloneSchedule(s, n), CloneTask(k)(t)) <==> TaskRefs(s, t)
    ensures DatesOk(CloneTask(k)(t)) <==> DatesOk(t)
    ensures StatusOk(CloneTask(k)(t)) <==> StatusOk(t)
  {
    hide Copies, Shift, Coded;
  }

  lemma RowVerdictsSame(s: Schedule, n: nat, k: nat)
    requires CanonicalIds(s) && k < n
    ensures forall a :: a in s.assigns ==> (AssignRefs(CloneSchedule(s, n), CloneAssign(k)(a)) <==> AssignRefs(s, a))
    ensures forall a :: a in s.assigns ==>
            (AssignHoursOk(CloneSchedule(s, n), CloneAssign(k)(a)) <==> AssignHoursOk(s, a))
    ensures forall u :: u in s.udfs ==> (UdfRefs(CloneSchedule(s, n), CloneUdf(k)(u)) <==> UdfRefs(s, u))
    ensures forall p :: p in s.preds ==> (PredRefs(CloneSchedule(s, n), ClonePred(k)(p)) <==> PredRefs(s, p))
  {
    hide Canonical, Copies, Shift, Coded, TaskMap, HoursOk, HasTask;
    forall a | a in s.assigns
      ensures AssignRefs(CloneSchedule(s, n), CloneAssign(k)(a)) <==> AssignRefs(s, a)
      ensures AssignHoursOk(CloneSchedule(s, n), CloneAssign(k)(a)) <==> AssignHoursOk(s, a)
    {
      ResolvesInOwnClone(s, n, k, a.task);
      AssignHoursSame(s, n, k, a);
    }
    forall u | u in s.udfs ensures UdfRefs(CloneSchedule(s, n), CloneUdf(k)(u)) <==> UdfRefs(s, u) {
      ResolvesInOwnClone(s, n, k, u.fk);
    }
    forall p | p in s.preds ensures PredRefs(CloneSchedule(s, n), ClonePred(k)(p)) <==> PredRefs(s, p) {
      ResolvesInOwnClone(s, n, k, p.task);
      ResolvesInOwnClone(s, n, k, p.pred);
    }
  }

  lemma AssignHoursSame(s: Schedule, n: nat, k: nat, a: Assign)
    requires CanonicalIds(s) && k < n && Reference(a.task)
    ensures AssignHoursOk(CloneSchedule(s, n), CloneAssign(k)(a)) <==> AssignHoursOk(s, a)
  {
    hide Canonical, Copies, Shift, Coded, TaskMap;
    ResolvesInOwnClone(s, n, k, a.task);
  }

  /** Cloning preserves meaning: for any number of clones but none, the references, the
      dates and statuses, and the hours are right in the result exactly when they are in
      the base. */
  lemma ClonePreservesChecks(s: Schedule, n: nat)
    requires CanonicalIds(s) && n >= 1
    ensures RefsResolve(CloneSchedule(s, n)) <==> RefsResolve(s)
    ensures (forall t :: t in CloneSchedule(s, n).tasks ==> DatesOk(t) && StatusOk(t)) <==>
            (forall t :: t in s.tasks ==> DatesOk(t) && StatusOk(t))
    ensures HoursAgree(CloneSchedule(s, n)) <==> HoursAgree(s)
  {
    RefsSame(s, n);
    TasksSame(s, n);
    AssignsSame(s, n);
    hide *;
    HoursByRow(s);
    HoursByRow(CloneSchedule(s, n));
  }

  lemma HoursByRow(s: Schedule)
    ensures HoursAgree(s) <==> forall a :: a in s.assigns ==> AssignHoursOk(s, a)
  {
  }

  lemma RefsSame(s: Schedule, n: nat)
    requires CanonicalIds(s) && n >= 1
    ensures RefsResolve(CloneSchedule(s, n)) <==> RefsResolve(s)
  {
    TasksSame(s, n);
    AssignsSame(s, n);
    NetSame(s, n);
    WbsSame(s, n);
    SameWbs(s, n);
    hide TaskRefs, AssignRefs, UdfRefs, PredRefs, WbsRefs, AssignHoursOk, DatesOk, StatusOk, CanonicalIds,
      CloneSchedule;
  }

  lemma SameWbs(s: Schedule, n: nat)
    ensures CloneSchedule(s, n).wbs == s.wbs
  {
  }

  lemma WbsSame(s: Schedule, n: nat)
    ensures forall w :: w in s.wbs ==> (WbsRefs(CloneSchedule(s, n), w) <==> WbsRefs(s, w))
  {
    hide Copies;
  }

  lemma TasksSame(s: Schedule, n: nat)
    requires n >= 1
    ensures var c := CloneSchedule(s, n);
            && ((forall t :: t in c.tasks ==> TaskRefs(c, t)) <==> (forall t :: t in s.tasks ==> TaskRefs(s, t)))
            && ((forall t :: t in c.tasks ==> DatesOk(t) && StatusOk(t)) <==>
                (forall t :: t in s.tasks ==> DatesOk(t) && StatusOk(t)))
  {
    var c := CloneSchedule(s, n);
    hide TaskRefs, DatesOk, StatusOk, Copies, CloneTask;
    forall k, t | 0 <= k < n && t in s.tasks
      ensures TaskRefs(c, CloneTask(k)(t)) <==> TaskRefs(s, t)
      ensures DatesOk(CloneTask(k)(t)) && StatusOk(CloneTask(k)(t)) <==> DatesOk(t) && StatusOk(t)
    {
      TaskVerdictSame(s, n, k, t);
    }
    SectionSame(CloneTask, s.tasks, n, (t: Task) => TaskRefs(c, t), (t: Task) => TaskRefs(s, t));
    SectionSame(CloneTask, s.tasks, n, (t: Task) => DatesOk(t) && StatusOk(t), (t: Task) => DatesOk(t) && StatusOk(t));
  }

  lemma AssignsSame(s: Schedule, n: nat)
    requires CanonicalIds(s) && n >= 1
    ensures var c := CloneSchedule(s, n);
            && ((forall a :: a in c.assigns ==> AssignRefs(c, a)) <==>
                (forall a :: a in s.assigns ==> AssignRefs(s, a)))
            && ((forall a :: a in c.assigns ==> AssignHoursOk(c, a)) <==>
                (forall a :: a in s.assigns ==> AssignHoursOk(s, a)))
  {
    var c := CloneSchedule(s, n);
    hide AssignRefs, AssignHoursOk, Copies, CloneAssign, CanonicalIds;
    forall k | 0 <= k < n
      ensures forall a :: a in s.assigns ==> (AssignRefs(c, CloneAssign(k)(a)) <==> AssignRefs(s, a))
      ensures forall a :: a in s.assigns ==> (AssignHoursOk(c, CloneAssign(k)(a)) <==> AssignHoursOk(s, a))
    {
      RowVerdictsSame(s, n, k);
    }
    SectionSame(CloneAssign, s.assigns, n, (a: Assign) => AssignRefs(c, a), (a: Assign) => AssignRefs(s, a));
    SectionSame(CloneAssign, s.assigns, n, (a: Assign) => AssignHoursOk(c, a), (a: Assign) => AssignHoursOk(s, a));
  }

  lemma NetSame(s: Schedule, n: nat)
    requires CanonicalIds(s) && n >= 1
    ensures var c := CloneSchedule(s, n);
            && ((forall u :: u in c.udfs ==> UdfRefs(c, u)) <==> (forall u :: u in s.udfs ==> UdfRefs(s, u)))
            && ((forall p :: p in c.preds ==> PredRefs(c, p)) <==> (forall p :: p in s.preds ==> PredRefs(s, p)))
  {
    var c := CloneSchedule(s, n);
    hide UdfRefs, PredRefs, Copies, CloneUdf, ClonePred, CanonicalIds;
    forall k | 0 <= k < n
      ensures forall u :: u in s.udfs ==> (UdfRefs(c, CloneUdf(k)(u)) <==> UdfRefs(s, u))
      ensures forall p :: p in s.preds ==> (PredRefs(c, ClonePred(k)(p)) <==> PredRefs(s, p))
    {
      RowVerdictsSame(s, n, k);
    }
    SectionSame(CloneUdf, s.udfs, n, (u: Udf) => UdfRefs(c, u), (u: Udf) => UdfRefs(s, u));
    SectionSame(ClonePred, s.preds, n, (p: Pred) => PredRefs(c, p), (p: Pred) => PredRefs(s, p));
  }

  // ----- The logic section: exemptions name codes, and clones change codes ------------------------

  /** The link holds on its dates, exempted or not. */
  predicate HoldsUnexempted(pred: Task, succ: Task, lag: real) {
    Dated(pred, succ) ==> Gap(pred, succ) >= lag - 0.01
  }

  ghost predicate RowLogic(s: Schedule, p: Pred) {
    IsFs(p) && PredRefs(s, p) ==> LinkOk(TaskMap(s.tasks)[p.pred], TaskMap(s.tasks)[p.task], p.lag)
  }

  ghost predicate RowLogicUnexempted(s: Schedule, p: Pred) {
    IsFs(p) && PredRefs(s, p) ==> HoldsUnexempted(TaskMap(s.tasks)[p.pred], TaskMap(s.tasks)[p.task], p.lag)
  }

  lemma LogicByRow(s: Schedule)
    ensures LogicHolds(s) <==> forall p :: p in s.preds ==> RowLogic(s, p)
  {
    hide LinkOk, PredRefs;
  }

  lemma SuffixEscapes(k: nat, pred: Task, succ: Task)
    requires k > 0
    ensures (CloneTask(k)(pred).code, CloneTask(k)(succ).code) !in INTENDED_LOGIC_INVERSIONS
  {
    var code := Coded(k, pred.code);
    assert code[|pred.code|] == 'C';
    assert code != "A5020";
  }

  lemma RowLogicOfClone(s: Schedule, n: nat, k: nat, p: Pred)
    requires CanonicalIds(s) && k < n && Reference(p.task) && Reference(p.pred)
    ensures RowLogic(CloneSchedule(s, n), ClonePred(k)(p)) <==>
            if k == 0 then RowLogic(s, p) else RowLogicUnexempted(s, p)
  {
    LinkCopied(s, n, k, p);
    hide *;
    RowLogicUnfold(CloneSchedule(s, n), ClonePred(k)(p));
    RowLogicUnfold(s, p);
    if PredRefs(s, p) {
      LinkOfClone(k, TaskMap(s.tasks)[p.pred], TaskMap(s.tasks)[p.task], p.lag);
    }
  }

  lemma RowLogicUnfold(s: Schedule, p: Pred)
    ensures RowLogic(s, p) <==>
            (IsFs(p) && PredRefs(s, p) ==> LinkOk(TaskMap(s.tasks)[p.pred], TaskMap(s.tasks)[p.task], p.lag))
    ensures RowLogicUnexempted(s, p) <==>
              (IsFs(p) && PredRefs(s, p) ==> HoldsUnexempted(TaskMap(s.tasks)[p.pred], TaskMap(s.tasks)[p.task], p.lag))
  {
    hide LinkOk, HoldsUnexempted;
  }

  /** A cloned link joins the copies of the tasks its base joins. */
  lemma LinkCopied(s: Schedule, n: nat, k: nat, p: Pred)
    requires CanonicalIds(s) && k < n && Reference(p.task) && Reference(p.pred)
    ensures var c, q := CloneSchedule(s, n), ClonePred(k)(p);
            && (PredRefs(c, q) <==> PredRefs(s, p)) && (IsFs(q) <==> IsFs(p)) && q.lag == p.lag
            && (PredRefs(s, p) ==>
                  && TaskMap(c.tasks)[q.pred] == CloneTask(k)(TaskMap(s.tasks)[p.pred])
                  && TaskMap(c.tasks)[q.task] == CloneTask(k)(TaskMap(s.tasks)[p.task]))
  {
    ResolvesInOwnClone(s, n, k, p.task);
    ResolvesInOwnClone(s, n, k, p.pred);
    hide CanonicalIds, Reference, Shift, TaskMap, CloneSchedule, CloneTask;
  }

  lemma LinkOfClone(k: nat, pred: Task, succ: Task, lag: real)
    ensures LinkOk(CloneTask(k)(pred), CloneTask(k)(succ), lag) <==>
              if k == 0 then LinkOk(pred, succ, lag) else HoldsUnexempted(pred, succ, lag)
  {
    if k > 0 {
      SuffixEscapes(k, pred, succ);
    }
    hide Shift;
  }

  /** The logic section is where cloning does not preserve meaning: with two clones or
      more the intended inversions are no longer excused, so it is clean exactly when
      every link of the base holds without them. */
  lemma CloneLosesExemptions(s: Schedule, n: nat)
    requires CanonicalIds(s) && n >= 2
    ensures LogicHolds(CloneSchedule(s, n)) <==> forall p :: p in s.preds ==> RowLogicUnexempted(s, p)
  {
    var c := CloneSchedule(s, n);
    LogicByRow(c);
    hide RowLogic, RowLogicUnexempted, LogicHolds, Copies, ClonePred;
    if LogicHolds(c) {
      forall p | p in s.preds ensures RowLogicUnexempted(s, p) {
        CopyIsThere(ClonePred, s.preds, 1, n, p);
        RowLogicOfClone(s, n, 1, p);
      }
    }
    if forall p :: p in s.preds ==> RowLogicUnexempted(s, p) {
      forall q | q in c.preds ensures RowLogic(c, q) {
        var k, p := CopyOf(ClonePred, s.preds, n, q);
        RowLogicOfClone(s, n, k, p);
        UnexemptedIsStronger(s, p);
      }
    }
  }

  lemma UnexemptedIsStronger(s: Schedule, p: Pred)
    requires RowLogicUnexempted(s, p)
    ensures RowLogic(s, p)
  {
    hide TaskMap, PredRefs, Gap;
  }

  /** A single clone is the base. */
  lemma OneCloneIsTheBase(s: Schedule)
    requires CanonicalIds(s)
    ensures CloneSchedule(s, 1) == s
  {
    OnlyCopy(CloneTask, s.tasks);
    OnlyCopy(ClonePred, s.preds);
    OnlyCopy(CloneAssign, s.assigns);
    OnlyCopy(CloneUdf, s.udfs);
    hide Copies;
  }

  lemma OnlyCopy<A>(clone: nat -> (A -> A), s: seq<A>)
    requires forall x :: x in s ==> clone(0)(x) == x
    ensures Copies(clone, s, 0, 1) == s
  {
    assert Map(clone(0), s) == s;
  }
}
