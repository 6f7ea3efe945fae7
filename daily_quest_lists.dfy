/**
 * The lists of daily quest records `DailyQuest_Manager` keeps: lookups by
 * definition, removal of a definition's first record, and the split of a
 * list by expiry.
 */
module DailyQuestLists {
  import opened Wrappers
  import opened Dates
  import opened Seqs
  import opened DailyQuestDef
  import opened DailyQuestProgressRecord

  /** Some record in `rs` belongs to the definition `q`. */
  predicate HasDef(rs: seq<DailyQuestProgress>, q: DailyQuestSO) {
    exists i :: 0 <= i < |rs| && rs[i].quest == q
  }

  /** No two records in `rs` belong to the same definition. */
  predicate DistinctDefs(rs: seq<DailyQuestProgress>) {
    forall i, j :: 0 <= i < j < |rs| ==> rs[i].quest != rs[j].quest
  }

  /** The definitions of the records, position by position. */
  function Quests(rs: seq<DailyQuestProgress>): (qs: seq<DailyQuestSO>)
    ensures |qs| == |rs| && forall i :: 0 <= i < |rs| ==> qs[i] == rs[i].quest
  {
    seq(|rs|, i requires 0 <= i < |rs| => rs[i].quest)
  }

  /** `FirstOrDefault(q => q.Quest == quest)`: the position of the first record of `q`, if any. */
  function FirstOfDef(rs: seq<DailyQuestProgress>, q: DailyQuestSO): (r: Option<nat>)
    ensures r.Some? <==> HasDef(rs, q)
    ensures r.Some? ==> (r.value < |rs| && rs[r.value].quest == q
      && forall k :: 0 <= k < r.value ==> rs[k].quest != q)
  {
    if |rs| == 0 then None
    else if rs[0].quest == q then Some(0)
    else
      match FirstOfDef(rs[1..], q)
      case None =>
        assert forall k :: 1 <= k < |rs| ==> rs[k] == rs[1..][k - 1];
        None
      case Some(i) =>
        assert rs[1..][i] == rs[i + 1];
        Some(i + 1)
  }

  /** `RemoveDailyQuest(q)` on the list: the first record of `q` taken out, nothing when there is none. */
  function RemoveDef(rs: seq<DailyQuestProgress>, q: DailyQuestSO): (r: seq<DailyQuestProgress>)
    ensures !HasDef(rs, q) ==> r == rs
    ensures HasDef(rs, q) ==> |r| == |rs| - 1
  {
    match FirstOfDef(rs, q)
    case None => rs
    case Some(i) => rs[..i] + rs[i + 1..]
  }

  /** `RemoveDailyQuest` applied for each definition of `qs` in turn. */
  function RemoveDefs(rs: seq<DailyQuestProgress>, qs: seq<DailyQuestSO>): seq<DailyQuestProgress> {
    if |qs| == 0 then rs else RemoveDef(RemoveDefs(rs, qs[..|qs| - 1]), qs[|qs| - 1])
  }

  /** `Where(q => q.IsExpired)`: the records whose day is over at `now`, in order. */
  function ExpiredOf(rs: seq<DailyQuestProgress>, now: Instant): seq<DailyQuestProgress>
    reads rs
  {
    if |rs| == 0 then []
    else ExpiredOf(rs[..|rs| - 1], now) + (if rs[|rs| - 1].IsExpired(now) then [rs[|rs| - 1]] else [])
  }

  /** The records whose day still lasts at `now`, in order. */
  function UnexpiredOf(rs: seq<DailyQuestProgress>, now: Instant): seq<DailyQuestProgress>
    reads rs
  {
    if |rs| == 0 then []
    else UnexpiredOf(rs[..|rs| - 1], now) + (if rs[|rs| - 1].IsExpired(now) then [] else [rs[|rs| - 1]])
  }

  /** In a list with one record per definition, a record's own position is the first position of its definition. */
  lemma FirstOfDefIsFirstIndex(rs: seq<DailyQuestProgress>, q: DailyQuestSO)
    requires HasDef(rs, q)
    ensures var i := FirstOfDef(rs, q).value; FirstIndex(rs, rs[i]) == i
  {
    var i := FirstOfDef(rs, q).value;
    var j := FirstIndex(rs, rs[i]);
    assert rs[j].quest == q;
  }

  /** Taking one record out keeps one record per definition and leaves its definition without a record. */
  lemma RemoveKeepsDistinctDefs(rs: seq<DailyQuestProgress>, i: nat)
    requires DistinctDefs(rs) && i < |rs|
    ensures DistinctDefs(rs[..i] + rs[i + 1..])
    ensures !HasDef(rs[..i] + rs[i + 1..], rs[i].quest)
  {
    var rest := rs[..i] + rs[i + 1..];
    assert forall k :: 0 <= k < |rest| ==> rest[k] == rs[if k < i then k else k + 1];
  }

  /** Removing a definition keeps the list free of repeated records and of repeated definitions. */
  lemma RemoveDefKeeps(rs: seq<DailyQuestProgress>, q: DailyQuestSO)
    ensures Distinct(rs) ==> Distinct(RemoveDef(rs, q))
    ensures DistinctDefs(rs) ==> DistinctDefs(RemoveDef(rs, q)) && !HasDef(RemoveDef(rs, q), q)
  {
    match FirstOfDef(rs, q)
    case None =>
    case Some(i) =>
      DistinctRemove(rs, i);
      if DistinctDefs(rs) {
        RemoveKeepsDistinctDefs(rs, i);
      }
  }

  /** A removal takes one occurrence of `q` out of the multiset of definitions. */
  lemma RemoveDefCount(rs: seq<DailyQuestProgress>, q: DailyQuestSO)
    requires HasDef(rs, q)
    ensures multiset(Quests(RemoveDef(rs, q))) == multiset(Quests(rs)) - multiset{q}
  {
    var i := FirstOfDef(rs, q).value;
    var qs := Quests(rs);
    assert Quests(rs[..i] + rs[i + 1..]) == qs[..i] + qs[i + 1..];
    assert qs == qs[..i] + [q] + qs[i + 1..];
  }

  /** A record whose definition is among the list's definitions can be found in the list. */
  lemma InQuestsHasDef(rs: seq<DailyQuestProgress>, q: DailyQuestSO)
    requires q in multiset(Quests(rs))
    ensures HasDef(rs, q)
  {
    var k :| 0 <= k < |Quests(rs)| && Quests(rs)[k] == q;
  }

  /** Removing the definitions `qs`, one each, takes exactly their occurrences out of the multiset of definitions. */
  lemma {:induction false} RemoveDefsCount(rs: seq<DailyQuestProgress>, qs: seq<DailyQuestSO>)
    requires multiset(qs) <= multiset(Quests(rs))
    ensures multiset(Quests(RemoveDefs(rs, qs))) == multiset(Quests(rs)) - multiset(qs)
  {
    if |qs| > 0 {
      var init := qs[..|qs| - 1];
      var q := qs[|qs| - 1];
      assert qs == init + [q];
      assert multiset(qs) == multiset(init) + multiset{q};
      RemoveDefsCount(rs, init);
      var mid := RemoveDefs(rs, init);
      assert q in multiset(Quests(mid));
      InQuestsHasDef(mid, q);
      RemoveDefCount(mid, q);
    }
  }

  /** Removing every listed record's definition, one each, empties the list, whatever definitions repeat. */
  lemma RemoveAllDefs(rs: seq<DailyQuestProgress>)
    ensures RemoveDefs(rs, Quests(rs)) == []
  {
    RemoveDefsCount(rs, Quests(rs));
    var r := RemoveDefs(rs, Quests(rs));
    assert |multiset(Quests(r))| == 0;
    assert |Quests(r)| == 0;
  }

  /** Removal only ever takes records out. */
  lemma {:induction false} RemoveDefsSublist(rs: seq<DailyQuestProgress>, qs: seq<DailyQuestSO>, q: DailyQuestSO)
    ensures HasDef(RemoveDefs(rs, qs), q) ==> HasDef(rs, q)
  {
    if |qs| > 0 {
      RemoveDefsSublist(rs, qs[..|qs| - 1], q);
      var mid := RemoveDefs(rs, qs[..|qs| - 1]);
      match FirstOfDef(mid, qs[|qs| - 1])
      case None =>
      case Some(i) =>
        var r := mid[..i] + mid[i + 1..];
        if HasDef(r, q) {
          var k :| 0 <= k < |r| && r[k].quest == q;
          assert r[k] == mid[if k < i then k else k + 1];
        }
    }
  }

  /** Appending a record of another definition commutes with removing `q`. */
  lemma RemoveDefAppend(rs: seq<DailyQuestProgress>, x: DailyQuestProgress, q: DailyQuestSO)
    requires x.quest != q
    ensures RemoveDef(rs + [x], q) == RemoveDef(rs, q) + [x]
  {
    var ext := rs + [x];
    assert forall k :: 0 <= k < |rs| ==> ext[k] == rs[k];
    match FirstOfDef(rs, q)
    case None =>
      assert !HasDef(ext, q);
    case Some(i) =>
      var j := FirstOfDef(ext, q).value;
      assert j == i;
      assert ext[..i] == rs[..i];
      assert ext[i + 1..] == rs[i + 1..] + [x];
  }

  /** Appending a record whose definition is not removed commutes with the removals. */
  lemma {:induction false} RemoveDefsAppend(rs: seq<DailyQuestProgress>, x: DailyQuestProgress, qs: seq<DailyQuestSO>)
    requires x.quest !in qs
    ensures RemoveDefs(rs + [x], qs) == RemoveDefs(rs, qs) + [x]
  {
    if |qs| > 0 {
      RemoveDefsAppend(rs, x, qs[..|qs| - 1]);
      RemoveDefAppend(RemoveDefs(rs, qs[..|qs| - 1]), x, qs[|qs| - 1]);
    }
  }

  /** The record of a definition absent from the rest of the list is the one its removal takes. */
  lemma RemoveDefLast(rs: seq<DailyQuestProgress>, x: DailyQuestProgress)
    requires !HasDef(rs, x.quest)
    ensures RemoveDef(rs + [x], x.quest) == rs
  {
    var ext := rs + [x];
    assert ext[|rs|].quest == x.quest;
    assert FirstOfDef(ext, x.quest).value == |rs|;
    assert ext[..|rs|] == rs;
  }

  /** The expired records are records of the list, and so are the unexpired ones. */
  lemma {:induction false} ExpiredOfMembers(rs: seq<DailyQuestProgress>, now: Instant)
    ensures forall k :: 0 <= k < |ExpiredOf(rs, now)| ==> ExpiredOf(rs, now)[k] in rs && ExpiredOf(rs, now)[k].IsExpired(now)
    ensures forall k :: 0 <= k < |UnexpiredOf(rs, now)| ==> UnexpiredOf(rs, now)[k] in rs && !UnexpiredOf(rs, now)[k].IsExpired(now)
    ensures forall k :: 0 <= k < |rs| ==> (rs[k] in ExpiredOf(rs, now) || rs[k] in UnexpiredOf(rs, now))
  {
    if |rs| > 0 {
      var init := rs[..|rs| - 1];
      ExpiredOfMembers(init, now);
      assert forall k :: 0 <= k < |init| ==> init[k] == rs[k];
      var e, u := ExpiredOf(init, now), UnexpiredOf(init, now);
      var e', u' := ExpiredOf(rs, now), UnexpiredOf(rs, now);
      assert forall k :: 0 <= k < |e| ==> e'[k] == e[k];
      assert forall k :: 0 <= k < |u| ==> u'[k] == u[k];
    }
  }

  /**
   * On a list with one record per definition, removing the definitions of the
   * expired records, one by one, keeps exactly the unexpired records in their
   * order.
   */
  lemma {:induction false} RemovingExpiredKeepsUnexpired(rs: seq<DailyQuestProgress>, now: Instant)
    requires DistinctDefs(rs)
    ensures RemoveDefs(rs, Quests(ExpiredOf(rs, now))) == UnexpiredOf(rs, now)
  {
    if |rs| > 0 {
      var init := rs[..|rs| - 1];
      var x := rs[|rs| - 1];
      assert DistinctDefs(init);
      RemovingExpiredKeepsUnexpired(init, now);
      var e := ExpiredOf(init, now);
      LastNotAmongExpired(rs, now);
      RemoveDefsAppend(init, x, Quests(e));
      assert rs == init + [x];
      if x.IsExpired(now) {
        RemoveExpiredLast(init, x, now);
      } else {
        assert ExpiredOf(rs, now) == e;
      }
    }
  }

  /** In a list with one record per definition, the last record's definition has no earlier record, expired or not. */
  lemma LastNotAmongExpired(rs: seq<DailyQuestProgress>, now: Instant)
    requires DistinctDefs(rs) && |rs| > 0
    ensures rs[|rs| - 1].quest !in Quests(ExpiredOf(rs[..|rs| - 1], now))
    ensures !HasDef(rs[..|rs| - 1], rs[|rs| - 1].quest)
  {
    var init := rs[..|rs| - 1];
    assert forall j :: 0 <= j < |init| ==> init[j] == rs[j];
    var e := ExpiredOf(init, now);
    ExpiredOfMembers(init, now);
    forall k | 0 <= k < |e|
      ensures Quests(e)[k] != rs[|rs| - 1].quest
    {
      var j :| 0 <= j < |init| && init[j] == e[k];
      assert rs[j] == e[k];
    }
  }

  /**
   * The step for an expired last record `x`: once the earlier expired
   * definitions are gone, removing `x`'s own leaves the earlier unexpired records.
   */
  lemma RemoveExpiredLast(init: seq<DailyQuestProgress>, x: DailyQuestProgress, now: Instant)
    requires x.IsExpired(now)
    requires RemoveDefs(init, Quests(ExpiredOf(init, now))) == UnexpiredOf(init, now)
    requires RemoveDefs(init + [x], Quests(ExpiredOf(init, now))) == RemoveDefs(init, Quests(ExpiredOf(init, now))) + [x]
    requires x.quest !in Quests(ExpiredOf(init, now)) && !HasDef(init, x.quest)
    ensures RemoveDefs(init + [x], Quests(ExpiredOf(init + [x], now))) == UnexpiredOf(init + [x], now)
  {
    var rs := init + [x];
    var e := ExpiredOf(init, now);
    var u := UnexpiredOf(init, now);
    assert rs[..|rs| - 1] == init;
    assert ExpiredOf(rs, now) == e + [x];
    assert UnexpiredOf(rs, now) == u;
    var qs := Quests(e + [x]);
    assert qs[..|qs| - 1] == Quests(e);
    assert !HasDef(u, x.quest) by {
      RemoveDefsSublist(init, Quests(e), x.quest);
    }
    RemoveDefLast(u, x);
  }

  /** When no record of the list has expired, all of them are unexpired. */
  lemma {:induction false} NoneExpired(rs: seq<DailyQuestProgress>, now: Instant)
    requires forall k :: 0 <= k < |rs| ==> !rs[k].IsExpired(now)
    ensures UnexpiredOf(rs, now) == rs && ExpiredOf(rs, now) == []
  {
    if |rs| > 0 {
      NoneExpired(rs[..|rs| - 1], now);
      assert rs == rs[..|rs| - 1] + [rs[|rs| - 1]];
    }
  }

  /** Removing records keeps one record per definition. */
  lemma {:induction false} WithoutKeepsDistinctDefs(rs: seq<DailyQuestProgress>, gone: seq<DailyQuestProgress>)
    requires DistinctDefs(rs)
    ensures DistinctDefs(Without(rs, gone))
  {
    if |rs| > 0 {
      var init := rs[..|rs| - 1];
      var x := rs[|rs| - 1];
      WithoutKeepsDistinctDefs(init, gone);
      var w := Without(init, gone);
      if x !in gone {
        forall k | 0 <= k < |w|
          ensures w[k].quest != x.quest
        {
          WithoutMembers(init, gone, w[k]);
          var j :| 0 <= j < |init| && init[j] == w[k];
          assert rs[j] == w[k];
        }
      }
    }
  }
}
