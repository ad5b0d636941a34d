/**
 * The repositories the services share, as one mutable store. Each repository is a map
 * from the key its finder looks up (`findByUserUsername`, `findByTrainingTypeName`,
 * `findById`); `trainerOrder` is the order in which `findAll` lists trainers.
 */
module Repositories {
  import opened Model

  class Database {
    var trainees: map<string, Trainee>
    var trainers: map<string, Trainer>
    var trainerOrder: seq<string>
    var trainingTypes: map<TrainingTypeName, TrainingType>
    var trainings: map<nat, Training>
    var nextTrainingId: nat

    /**
     * Every record is stored under its own key, a username belongs to one user only,
     * `trainerOrder` lists each trainer once, and identifiers come from `nextTrainingId`.
     */
    ghost predicate Valid()
      reads this
    {
      && (forall u :: u in trainees ==> trainees[u].Username() == u)
      && (forall u :: u in trainers ==> trainers[u].Username() == u)
      && trainees.Keys !! trainers.Keys
      && Distinct(trainerOrder)
      && (forall u :: u in trainerOrder <==> u in trainers)
      && (forall n :: n in trainingTypes ==> trainingTypes[n].trainingTypeName == n)
      && (forall id :: id in trainings ==> trainings[id].id == id && id < nextTrainingId)
    }

    /** The usernames of all users, trainees and trainers alike. */
    function Usernames(): (r: set<string>)
      reads this
      ensures forall u :: u in r <==> u in trainees || u in trainers
    {
      trainees.Keys + trainers.Keys
    }

    /** `findAll` on the trainer repository: every trainer, in `trainerOrder`. */
    function AllTrainers(): (r: seq<Trainer>)
      reads this
      requires Valid()
      ensures |r| == |trainerOrder|
      ensures forall i :: 0 <= i < |r| ==> r[i] == trainers[trainerOrder[i]]
    {
      Resolve(trainerOrder, trainers)
    }

    constructor ()
      ensures Valid()
      ensures trainees == map[] && trainers == map[] && trainerOrder == []
      ensures trainingTypes == map[] && trainings == map[] && nextTrainingId == 0
    {
      trainees := map[];
      trainers := map[];
      trainerOrder := [];
      trainingTypes := map[];
      trainings := map[];
      nextTrainingId := 0;
    }
  }

  predicate Distinct<T(==)>(s: seq<T>) {
    forall i, j :: 0 <= i < j < |s| ==> s[i] != s[j]
  }

  /** `s` with every occurrence of `x` dropped, the rest in order. */
  function Without(s: seq<string>, x: string): (r: seq<string>)
    ensures forall y :: y in r <==> y in s && y != x
    ensures Distinct(s) ==> Distinct(r)
    ensures x !in s ==> r == s
  {
    if s == [] then []
    else
      var rest := Without(s[1..], x);
      if s[0] == x then rest
      else
        assert Distinct(s) ==> s[0] !in s[1..];
        [s[0]] + rest
  }

  /** Dropping `x` from a concatenation drops it from each part: the kept names stay in order. */
  lemma {:induction false} WithoutAppend(a: seq<string>, b: seq<string>, x: string)
    ensures Without(a + b, x) == Without(a, x) + Without(b, x)
  {
    if a == [] {
      assert a + b == b;
    } else {
      assert (a + b)[1..] == a[1..] + b;
      WithoutAppend(a[1..], b, x);
    }
  }

  /** Names of `r` found in `s` come in the order of their first occurrences in `s`. */
  predicate InOrderOf(r: seq<string>, s: seq<string>) {
    forall i, j :: 0 <= i < j < |r| && r[i] in s && r[j] in s ==> FirstIndex(s, r[i]) < FirstIndex(s, r[j])
  }

  /** Putting a name in front that the list does not hold keeps the list in order. */
  lemma InOrderOfCons(r: seq<string>, t: seq<string>, a: string)
    requires InOrderOf(r, t) && a !in r
    requires forall y :: y in r ==> y in t
    ensures InOrderOf(r, [a] + t) && InOrderOf([a] + r, [a] + t)
  {
    var s := [a] + t;
    assert s[1..] == t;
    forall y | y in r
      ensures FirstIndex(s, y) == 1 + FirstIndex(t, y)
    {
    }
    var r' := [a] + r;
    forall i, j | 0 <= i < j < |r'| && r'[i] in s && r'[j] in s
      ensures FirstIndex(s, r'[i]) < FirstIndex(s, r'[j])
    {
      assert r'[j] == r[j - 1] && r[j - 1] in r;
      if i > 0 {
        assert r'[i] == r[i - 1] && r[i - 1] in r;
      }
    }
  }

  /** In a duplicate-free order the names `Without` keeps appear in the order they had. */
  lemma {:induction false} WithoutKeepsOrder(s: seq<string>, x: string)
    requires Distinct(s)
    ensures InOrderOf(Without(s, x), s)
  {
    if s != [] {
      assert Distinct(s[1..]);
      assert s[0] !in s[1..];
      WithoutKeepsOrder(s[1..], x);
      InOrderOfCons(Without(s[1..], x), s[1..], s[0]);
      assert s == [s[0]] + s[1..];
    }
  }

  /** The position of the first occurrence of `x` in `s`. */
  function FirstIndex(s: seq<string>, x: string): (i: nat)
    requires x in s
    ensures i < |s| && s[i] == x && x !in s[..i]
  {
    if s[0] == x then 0 else 1 + FirstIndex(s[1..], x)
  }

  /** `s` with the first occurrence of `x` removed, as `List.remove(Object)` does. */
  function RemoveFirst(s: seq<string>, x: string): (r: seq<string>)
    ensures x !in s ==> r == s
    ensures x in s ==> r == s[..FirstIndex(s, x)] + s[FirstIndex(s, x) + 1..]
  {
    if s == [] then []
    else if s[0] == x then s[1..]
    else
      var rest := RemoveFirst(s[1..], x);
      assert x in s ==> [s[0]] + rest == s[..FirstIndex(s, x)] + s[FirstIndex(s, x) + 1..] by {
        if x in s {
          var i := FirstIndex(s[1..], x);
          assert s[..i + 1] == [s[0]] + s[1..][..i];
          assert s[i + 2..] == s[1..][i + 1..];
        }
      }
      [s[0]] + rest
  }
}
