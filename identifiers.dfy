/** `Identifiers.to_dict`: a study's identifications, ordered by creation
    time, split into the primary identification and the secondary ones. */
module Identifiers {
  import opened Results
  import opened Seqs
  import opened Sorting

  /** A study identification row; `createdAt` is the integer timestamp column. */
  datatype StudyIdentification = StudyIdentification(
    id: string,
    identifier: string,
    identifierType: Option<string>,
    identifierDomain: string,
    identifierLink: string,
    secondary: bool,
    createdAt: int)

  /** `StudyIdentification.to_dict()`: every column but `secondary`. */
  datatype IdentificationDict = IdentificationDict(
    id: string,
    identifier: string,
    identifierType: Option<string>,
    identifierDomain: string,
    identifierLink: string,
    createdAt: int)

  datatype IdentifiersDict = IdentifiersDict(primary: Option<IdentificationDict>, secondary: seq<IdentificationDict>)

  function AsDict(i: StudyIdentification): IdentificationDict {
    IdentificationDict(i.id, i.identifier, i.identifierType, i.identifierDomain, i.identifierLink, i.createdAt)
  }

  function CreatedAt(i: StudyIdentification): int {
    i.createdAt
  }

  function IntLess(a: int, b: int): bool {
    a < b
  }

  predicate IsSecondary(i: StudyIdentification) {
    i.secondary
  }

  predicate IsPrimaryCandidate(i: StudyIdentification) {
    !i.secondary
  }

  lemma IntLessOrder()
    ensures StrictTotalOrder(IntLess)
  {
  }

  /** The identifications ordered by creation time, ties in input order. */
  function ByCreation(ids: seq<StudyIdentification>): seq<StudyIdentification> {
    Sort(ids, CreatedAt, IntLess)
  }

  /** The primary identification: the first non-secondary one in creation order. */
  function Primary(ids: seq<StudyIdentification>): (p: Option<StudyIdentification>)
    ensures p.None? <==> forall i | i in ids :: i.secondary
    ensures p.Some? ==> p.value in ids && !p.value.secondary
  {
    var candidates := Filter(ByCreation(ids), IsPrimaryCandidate);
    if |candidates| == 0 then
      forall i | i in ids ensures i.secondary {
        assert i in multiset(ByCreation(ids));
        assert i in ByCreation(ids);
        assert !IsPrimaryCandidate(i);
      }
      None
    else
      assert candidates[0] in candidates;
      assert candidates[0] in ByCreation(ids);
      assert candidates[0] in multiset(ByCreation(ids));
      assert candidates[0] in multiset(ids);
      assert candidates[0] in candidates && IsPrimaryCandidate(candidates[0]);
      Some(candidates[0])
  }

  /** The secondary identifications in creation order. */
  function Secondary(ids: seq<StudyIdentification>): (s: seq<StudyIdentification>)
    ensures forall i | i in s :: i in ids && i.secondary
  {
    var s := Filter(ByCreation(ids), IsSecondary);
    assert forall i | i in s :: i in multiset(ByCreation(ids));
    s
  }

  /** `to_dict`: the primary identification's dictionary, or none, and the
      secondary identifications' dictionaries, in creation order. */
  function ToDict(ids: seq<StudyIdentification>): (r: IdentifiersDict)
    ensures r.primary.None? <==> forall i | i in ids :: i.secondary
    ensures |r.secondary| == |Secondary(ids)|
    ensures forall k | 0 <= k < |r.secondary| :: r.secondary[k] == AsDict(Secondary(ids)[k])
    ensures r.primary.Some? ==> exists i | i in ids && !i.secondary :: r.primary.value == AsDict(i)
  {
    var p := Primary(ids);
    var s := Secondary(ids);
    IdentifiersDict(
      if p.Some? then Some(AsDict(p.value)) else None,
      seq(|s|, k requires 0 <= k < |s| => AsDict(s[k])))
  }

  /** The secondary list holds each secondary identification exactly as often
      as the input does, in creation order, with ties in input order. */
  lemma SecondaryExactly(ids: seq<StudyIdentification>)
    ensures Secondary(ids) == Sort(Filter(ids, IsSecondary), CreatedAt, IntLess)
    ensures multiset(Secondary(ids)) == multiset(Filter(ids, IsSecondary))
    ensures SortedBy(Secondary(ids), CreatedAt, IntLess)
  {
    IntLessOrder();
    FilterSort(ids, CreatedAt, IntLess, IsSecondary);
    SortSorted(Filter(ids, IsSecondary), CreatedAt, IntLess);
  }

  /** Secondary identifications created at the same time keep their input order. */
  lemma SecondaryStable(ids: seq<StudyIdentification>, t: int)
    ensures Filter(Secondary(ids), KeyIs(CreatedAt, t)) ==
      Filter(Filter(ids, IsSecondary), KeyIs(CreatedAt, t))
  {
    IntLessOrder();
    SecondaryExactly(ids);
    SortStable(Filter(ids, IsSecondary), CreatedAt, IntLess, t);
  }

  /** The primary identification is the non-secondary one created first, and
      among those created at that time the first in input order. */
  lemma PrimaryEarliest(ids: seq<StudyIdentification>) returns (m: nat)
    requires exists i | i in ids :: !i.secondary
    ensures var c := Filter(ids, IsPrimaryCandidate);
      && m < |c|
      && Primary(ids) == Some(c[m])
      && (forall j | 0 <= j < |c| :: c[m].createdAt <= c[j].createdAt)
      && (forall j | 0 <= j < m :: c[m].createdAt < c[j].createdAt)
  {
    var c := Filter(ids, IsPrimaryCandidate);
    var i :| i in ids && !i.secondary;
    assert IsPrimaryCandidate(i) && i in c;
    m := PrimaryIsSortHead(ids);
    forall j | 0 <= j < |c| ensures c[m].createdAt <= c[j].createdAt {
      assert !IntLess(CreatedAt(c[j]), CreatedAt(c[m]));
    }
    forall j | 0 <= j < m ensures c[m].createdAt < c[j].createdAt {
      assert IntLess(CreatedAt(c[m]), CreatedAt(c[j]));
    }
  }

  /** `to_dict`'s primary entry is the dictionary of the non-secondary
      identification created first, the first in input order among those
      created at that time. */
  lemma ToDictPrimary(ids: seq<StudyIdentification>) returns (m: nat)
    requires exists i | i in ids :: !i.secondary
    ensures var c := Filter(ids, IsPrimaryCandidate);
      && m < |c|
      && ToDict(ids).primary == Some(AsDict(c[m]))
      && (forall j | 0 <= j < |c| :: c[m].createdAt <= c[j].createdAt)
      && (forall j | 0 <= j < m :: c[m].createdAt < c[j].createdAt)
  {
    m := PrimaryEarliest(ids);
  }

  /** The primary identification is the head of the candidates sorted by creation time. */
  lemma PrimaryIsSortHead(ids: seq<StudyIdentification>) returns (m: nat)
    requires |Filter(ids, IsPrimaryCandidate)| > 0
    ensures var c := Filter(ids, IsPrimaryCandidate);
      && m < |c| && Primary(ids) == Some(c[m])
      && (forall j | 0 <= j < |c| :: !IntLess(CreatedAt(c[j]), CreatedAt(c[m])))
      && (forall j | 0 <= j < m :: IntLess(CreatedAt(c[m]), CreatedAt(c[j])))
  {
    var c := Filter(ids, IsPrimaryCandidate);
    IntLessOrder();
    FilterSort(ids, CreatedAt, IntLess, IsPrimaryCandidate);
    m := SortHead(c, CreatedAt, IntLess);
    assert Filter(ByCreation(ids), IsPrimaryCandidate)[0] == c[m];
  }

  /** The primary identification is never in the secondary list, and no other
      non-secondary identification is in either field. */
  lemma PrimaryApart(ids: seq<StudyIdentification>, i: StudyIdentification)
    requires i in ids && !i.secondary && Primary(ids) != Some(i)
    ensures i !in Secondary(ids)
    ensures forall p | Primary(ids) == Some(p) :: p !in Secondary(ids)
  {
  }
}
