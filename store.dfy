/**
 * The portal's database held in memory: one sequence of rows per table, in insertion order,
 * and a counter for the ids the database generates. The functions below are the shapes of the
 * queries the pages issue: `select ... eq(...)` with `single()` or `maybeSingle()`, and
 * `update(...).eq("id", id)`, which rewrites every row carrying that id.
 */
module Store {
  import opened Wrappers
  import opened Seqs
  import opened Schema

  /** The primary keys of the tables whose ids the database generates. */
  function AttemptKey(a: Attempt): Id { a.id }
  function ResponseKey(r: Response): Id { r.id }
  function EvaluationKey(e: Evaluation): Id { e.id }
  function RoleKey(u: UserRole): Id { u.id }

  /** The ids of a sequence of rows are pairwise distinct. */
  predicate DistinctIds<T>(rows: seq<T>, idOf: T -> Id)
  {
    forall i, j :: 0 <= i < j < |rows| ==> idOf(rows[i]) != idOf(rows[j])
  }

  /** Every id is below the next one the database will hand out. */
  predicate IdsBelow<T>(rows: seq<T>, idOf: T -> Id, bound: Id)
  {
    forall i :: 0 <= i < |rows| ==> idOf(rows[i]) < bound
  }

  /** Appending a row with the next id keeps the ids distinct and below the advanced counter. */
  lemma {:induction false} AppendFresh<T>(rows: seq<T>, idOf: T -> Id, bound: Id, row: T)
    requires DistinctIds(rows, idOf) && IdsBelow(rows, idOf, bound)
    requires idOf(row) == bound
    ensures DistinctIds(rows + [row], idOf) && IdsBelow(rows + [row], idOf, bound + 1)
  {
  }

  /** Filtering keeps ids distinct. */
  lemma {:induction false} FilteredIdsDistinct<T(!new)>(rows: seq<T>, p: T -> bool, idOf: T -> Id)
    requires DistinctIds(rows, idOf)
    ensures DistinctIds(Filter(rows, p), idOf)
  {
    var differ := (x: T, y: T) => idOf(x) != idOf(y);
    assert Pairwise(rows, differ);
    FilterKeepsPairwise(rows, p, differ);
  }

  /** The rows after the first keep distinct ids. */
  lemma {:induction false} DistinctTail<T>(rows: seq<T>, idOf: T -> Id)
    requires rows != [] && DistinctIds(rows, idOf)
    ensures DistinctIds(rows[1..], idOf)
  {
    var tail := rows[1..];
    forall i, j | 0 <= i < j < |tail| ensures idOf(tail[i]) != idOf(tail[j]) {
      assert tail[i] == rows[i + 1] && tail[j] == rows[j + 1];
    }
  }

  /** Reordering keeps ids distinct. */
  lemma {:induction false} PermutedIdsDistinct<T>(a: seq<T>, b: seq<T>, idOf: T -> Id)
    requires multiset(a) == multiset(b) && DistinctIds(a, idOf)
    ensures DistinctIds(b, idOf)
  {
    forall i, j | 0 <= i < j < |b| ensures idOf(b[i]) != idOf(b[j]) {
      PermutedPairDiffers(a, b, idOf, i, j);
    }
  }

  /** Two places of a reordering of rows with distinct ids hold rows with distinct ids. */
  lemma {:induction false} PermutedPairDiffers<T>(a: seq<T>, b: seq<T>, idOf: T -> Id, i: nat, j: nat)
    requires multiset(a) == multiset(b) && DistinctIds(a, idOf) && i < j < |b|
    ensures idOf(b[i]) != idOf(b[j])
  {
    DistinctOccursOnce(a, idOf, b[i]);
    PairOccurrences(b, i, j);
    assert b[i] != b[j];
    assert b[i] in multiset(a) && b[j] in multiset(a);
    var k :| 0 <= k < |a| && a[k] == b[i];
    var l :| 0 <= l < |a| && a[l] == b[j];
    assert k != l;
  }

  /** A row of a table with distinct ids occurs in it at most once. */
  lemma {:induction false} DistinctOccursOnce<T>(a: seq<T>, idOf: T -> Id, x: T)
    requires DistinctIds(a, idOf)
    ensures multiset(a)[x] <= 1
  {
    if a != [] {
      var init := a[..|a| - 1];
      var last := a[|a| - 1];
      assert a == init + [last];
      assert DistinctIds(init, idOf) by {
        forall i, j | 0 <= i < j < |init| ensures idOf(init[i]) != idOf(init[j]) {
          assert init[i] == a[i] && init[j] == a[j];
        }
      }
      DistinctOccursOnce(init, idOf, x);
      assert last !in init by {
        forall i | 0 <= i < |init| ensures init[i] != last {
          assert init[i] == a[i] && idOf(a[i]) != idOf(a[|a| - 1]);
        }
      }
    }
  }

  /** Two places holding the same element make it occur at least twice. */
  lemma {:induction false} PairOccurrences<T>(b: seq<T>, i: nat, j: nat)
    requires i < j < |b|
    ensures b[i] == b[j] ==> multiset(b)[b[i]] >= 2
  {
    assert b == b[..j] + [b[j]] + b[j + 1..];
    assert b[..j][i] == b[i];
    assert b[i] in multiset(b[..j]);
  }

  /** Deleting rows keeps the remaining ids distinct and below the bound. */
  lemma {:induction false} KeptRolesValid(roles: seq<UserRole>, p: UserRole -> bool, bound: Id)
    requires DistinctIds(roles, RoleKey) && IdsBelow(roles, RoleKey, bound)
    ensures DistinctIds(Filter(roles, p), RoleKey) && IdsBelow(Filter(roles, p), RoleKey, bound)
  {
    var differ := (x: UserRole, y: UserRole) => x.id != y.id;
    assert Pairwise(roles, differ);
    FilterKeepsPairwise(roles, p, differ);
    var kept := Filter(roles, p);
    forall i | 0 <= i < |kept| ensures kept[i].id < bound {
      assert kept[i] in roles;
    }
  }

  /**
   * A query ending in `.single()` (or `.maybeSingle()`): a row only when exactly one row
   * matches; no match or several matches give nothing (an error for `single()`, `null` data
   * for `maybeSingle()`).
   */
  function SingleMatch<T(!new)>(rows: seq<T>, p: T -> bool): (r: Option<T>)
    ensures r.Some? <==> Count(rows, p) == 1
    ensures r.Some? ==> r.value in rows && p(r.value)
  {
    var m := Filter(rows, p);
    if |m| == 1 then assert m[0] in m; Some(m[0]) else None
  }

  /** Two different rows satisfying `p` make `SingleMatch` return nothing. */
  lemma {:induction false} TwoMatchesNoSingle<T(!new)>(rows: seq<T>, p: T -> bool, i: nat, j: nat)
    requires i < j < |rows| && p(rows[i]) && p(rows[j])
    ensures Count(rows, p) >= 2
    ensures SingleMatch(rows, p).None?
  {
    if i == 0 {
      assert rows[j] == rows[1..][j - 1];
      assert rows[j] in Filter(rows[1..], p);
    } else {
      TwoMatchesNoSingle(rows[1..], p, i - 1, j - 1);
    }
  }

  /** A row that satisfies `p` and is the only such row is what `SingleMatch` returns. */
  lemma {:induction false} OnlyMatchIsSingle<T(!new)>(rows: seq<T>, p: T -> bool, i: nat)
    requires i < |rows| && p(rows[i])
    requires forall j :: 0 <= j < |rows| && j != i ==> !p(rows[j])
    ensures SingleMatch(rows, p) == Some(rows[i])
  {
    OnlyMatchFilter(rows, p, i);
  }

  lemma {:induction false} OnlyMatchFilter<T(!new)>(rows: seq<T>, p: T -> bool, i: nat)
    requires i < |rows| && p(rows[i])
    requires forall j :: 0 <= j < |rows| && j != i ==> !p(rows[j])
    ensures Filter(rows, p) == [rows[i]]
  {
    if i == 0 {
      NoMatchFilter(rows[1..], p);
    } else {
      OnlyMatchFilter(rows[1..], p, i - 1);
    }
  }

  /** No two rows satisfy `p`. */
  predicate AtMostOne<T>(rows: seq<T>, p: T -> bool)
  {
    forall i, j :: 0 <= i < j < |rows| && p(rows[i]) ==> !p(rows[j])
  }

  /** When no two rows satisfy `p`, at most one row is counted. */
  lemma {:induction false} AtMostOneCount<T(!new)>(rows: seq<T>, p: T -> bool)
    requires AtMostOne(rows, p)
    ensures Count(rows, p) <= 1
  {
    if rows != [] {
      if p(rows[0]) {
        assert forall j :: 0 <= j < |rows[1..]| ==> !p(rows[1..][j]) by {
          forall j | 0 <= j < |rows[1..]| ensures !p(rows[1..][j]) {
            assert rows[1..][j] == rows[j + 1];
          }
        }
        NoMatchFilter(rows[1..], p);
      } else {
        assert AtMostOne(rows[1..], p) by {
          forall i, j | 0 <= i < j < |rows[1..]| && p(rows[1..][i]) ensures !p(rows[1..][j]) {
            assert rows[1..][i] == rows[i + 1] && rows[1..][j] == rows[j + 1];
          }
        }
        AtMostOneCount(rows[1..], p);
      }
    }
  }

  /** `update({ points_awarded: points }).eq("id", id)` on `test_responses`. */
  function SetResponsePoints(rows: seq<Response>, id: Id, points: int): (r: seq<Response>)
    ensures |r| == |rows|
    ensures forall i :: 0 <= i < |rows| && rows[i].id == id ==> r[i] == rows[i].(pointsAwarded := Some(points))
    ensures forall i :: 0 <= i < |rows| && rows[i].id != id ==> r[i] == rows[i]
  {
    seq(|rows|, i requires 0 <= i < |rows| => if rows[i].id == id then rows[i].(pointsAwarded := Some(points)) else rows[i])
  }

  /** `update({ answer_text: text }).eq("id", id)` on `test_responses`. */
  function SetResponseAnswer(rows: seq<Response>, id: Id, text: string): (r: seq<Response>)
    ensures |r| == |rows|
    ensures forall i :: 0 <= i < |rows| && rows[i].id == id ==> r[i] == rows[i].(answerText := Some(text))
    ensures forall i :: 0 <= i < |rows| && rows[i].id != id ==> r[i] == rows[i]
  {
    seq(|rows|, i requires 0 <= i < |rows| => if rows[i].id == id then rows[i].(answerText := Some(text)) else rows[i])
  }

  /** Updating points or answers never changes a row's id. */
  lemma {:induction false} SetResponseKeepsIds(rows: seq<Response>, r: seq<Response>, bound: Id)
    requires |r| == |rows| && forall i :: 0 <= i < |rows| ==> r[i].id == rows[i].id
    requires DistinctIds(rows, ResponseKey) && IdsBelow(rows, ResponseKey, bound)
    ensures DistinctIds(r, ResponseKey) && IdsBelow(r, ResponseKey, bound)
  {
  }

  /** An update of `test_attempts` by id that replaces the matching rows with `f` of themselves. */
  function UpdateAttempt(rows: seq<Attempt>, id: Id, f: Attempt -> Attempt): (r: seq<Attempt>)
    ensures |r| == |rows|
    ensures forall i :: 0 <= i < |rows| && rows[i].id == id ==> r[i] == f(rows[i])
    ensures forall i :: 0 <= i < |rows| && rows[i].id != id ==> r[i] == rows[i]
  {
    seq(|rows|, i requires 0 <= i < |rows| => if rows[i].id == id then f(rows[i]) else rows[i])
  }

  /** An update by id never changes a row's id, so distinct ids stay distinct. */
  lemma {:induction false} UpdateAttemptKeepsIds(rows: seq<Attempt>, id: Id, f: Attempt -> Attempt, bound: Id)
    requires forall a :: f(a).id == a.id
    requires DistinctIds(rows, AttemptKey) && IdsBelow(rows, AttemptKey, bound)
    ensures DistinctIds(UpdateAttempt(rows, id, f), AttemptKey)
    ensures IdsBelow(UpdateAttempt(rows, id, f), AttemptKey, bound)
  {
    var r := UpdateAttempt(rows, id, f);
    assert forall i :: 0 <= i < |rows| ==> r[i].id == rows[i].id;
  }

  /** The whole database: every table the model reads or writes. */
  class Database {
    var tests: seq<Test>
    var questions: seq<Question>
    var attempts: seq<Attempt>
    var responses: seq<Response>
    var evaluations: seq<Evaluation>
    var profiles: seq<Profile>
    var userRoles: seq<UserRole>
    /** The id the database hands to the next inserted attempt, response, evaluation or role. */
    var nextId: Id

    /** Primary keys are unique, and every generated id is below `nextId`. */
    ghost predicate Valid()
      reads this
    {
      DistinctIds(attempts, AttemptKey) && IdsBelow(attempts, AttemptKey, nextId) &&
      DistinctIds(responses, ResponseKey) && IdsBelow(responses, ResponseKey, nextId) &&
      DistinctIds(evaluations, EvaluationKey) && IdsBelow(evaluations, EvaluationKey, nextId) &&
      DistinctIds(userRoles, RoleKey) && IdsBelow(userRoles, RoleKey, nextId)
    }

    /** An empty database. */
    constructor ()
      ensures Valid()
      ensures tests == [] && questions == [] && attempts == [] && responses == []
      ensures evaluations == [] && profiles == [] && userRoles == [] && nextId == 0
    {
      tests, questions, attempts, responses := [], [], [], [];
      evaluations, profiles, userRoles := [], [], [];
      nextId := 0;
    }

    /** `update({ points_awarded: points }).eq("id", id)` on `test_responses`. */
    method UpdateResponsePoints(id: Id, points: int)
      requires Valid()
      modifies this`responses
      ensures Valid()
      ensures responses == SetResponsePoints(old(responses), id, points)
    {
      var updated := SetResponsePoints(responses, id, points);
      SetResponseKeepsIds(responses, updated, nextId);
      responses := updated;
    }

    /** `update({ answer_text: text }).eq("id", id)` on `test_responses`. */
    method UpdateResponseAnswer(id: Id, text: string)
      requires Valid()
      modifies this`responses
      ensures Valid()
      ensures responses == SetResponseAnswer(old(responses), id, text)
    {
      var updated := SetResponseAnswer(responses, id, text);
      SetResponseKeepsIds(responses, updated, nextId);
      responses := updated;
    }

    /** An insert into `evaluations`; the row carries the id the database assigns, `nextId`. */
    method InsertEvaluation(row: Evaluation)
      requires Valid() && row.id == nextId
      modifies this`evaluations, this`nextId
      ensures Valid()
      ensures evaluations == old(evaluations) + [row] && nextId == old(nextId) + 1
    {
      AppendFresh(evaluations, EvaluationKey, nextId, row);
      evaluations := evaluations + [row];
      nextId := nextId + 1;
    }

    /** An insert into `test_responses` under the next id. */
    method InsertResponse(row: Response)
      requires Valid() && row.id == nextId
      modifies this`responses, this`nextId
      ensures Valid()
      ensures responses == old(responses) + [row] && nextId == old(nextId) + 1
    {
      AppendFresh(responses, ResponseKey, nextId, row);
      responses := responses + [row];
      nextId := nextId + 1;
    }

    /** An insert into `test_attempts` under the next id. */
    method InsertAttempt(row: Attempt)
      requires Valid() && row.id == nextId
      modifies this`attempts, this`nextId
      ensures Valid()
      ensures attempts == old(attempts) + [row] && nextId == old(nextId) + 1
    {
      AppendFresh(attempts, AttemptKey, nextId, row);
      attempts := attempts + [row];
      nextId := nextId + 1;
    }

    /** A delete from `user_roles`: only the rows `keep` accepts remain. */
    method DeleteRoles(keep: UserRole -> bool)
      requires Valid()
      modifies this`userRoles
      ensures Valid()
      ensures userRoles == Filter(old(userRoles), keep)
    {
      KeptRolesValid(userRoles, keep, nextId);
      userRoles := Filter(userRoles, keep);
    }

    /** An insert into `user_roles` under the next id. */
    method InsertRole(row: UserRole)
      requires Valid() && row.id == nextId
      modifies this`userRoles, this`nextId
      ensures Valid()
      ensures userRoles == old(userRoles) + [row] && nextId == old(nextId) + 1
    {
      AppendFresh(userRoles, RoleKey, nextId, row);
      userRoles := userRoles + [row];
      nextId := nextId + 1;
    }

    /** An update of `test_attempts` by id; `f` never changes an id. */
    method ApplyToAttempt(id: Id, f: Attempt -> Attempt)
      requires Valid() && forall a :: f(a).id == a.id
      modifies this`attempts
      ensures Valid()
      ensures attempts == UpdateAttempt(old(attempts), id, f)
    {
      UpdateAttemptKeepsIds(attempts, id, f, nextId);
      attempts := UpdateAttempt(attempts, id, f);
    }
  }
}
