/**
 * The label maps the mission pages display: status to Korean label, its inverse
 * (built by a dict comprehension over the first map), and the approval-request labels.
 * Maps are kept as their insertion-ordered entry lists, as Python dicts are.
 */
module UiHelpers {

  type Entries = seq<(string, string)>

  /** `status_map` of `get_status_maps`, in insertion order. */
  const StatusEntries: Entries :=
    [("Assigned", "할 일"), ("Pending", "검사 대기"), ("Approved", "완료"), ("Rejected", "반려")]

  /** `approval_map` of `get_approval_request_maps`, in insertion order. */
  const ApprovalEntries: Entries :=
    [("Assigned", "미요청"), ("Pending", "요청"), ("Approved", "완료"), ("Rejected", "반려")]

  /** A dict literal or comprehension built from entries in order: a later key overwrites an earlier one. */
  function DictOf(es: Entries): (d: map<string, string>)
    ensures forall i :: 0 <= i < |es| ==> es[i].0 in d
    decreases |es|
  {
    if es == [] then map[]
    else
      var p := es[..|es| - 1];
      var d := DictOf(p);
      assert forall i :: 0 <= i < |p| ==> p[i] == es[i];
      d[es[|es| - 1].0 := es[|es| - 1].1]
  }

  /** Every key of the dict comes from an entry, and its value from an entry with that key. */
  lemma {:induction false} DictOfFromEntries(es: Entries, k: string)
    requires k in DictOf(es)
    ensures exists i :: 0 <= i < |es| && es[i].0 == k && DictOf(es)[k] == es[i].1
    decreases |es|
  {
    var p := es[..|es| - 1];
    if k != es[|es| - 1].0 {
      DictOfFromEntries(p, k);
      var i :| 0 <= i < |p| && p[i].0 == k && DictOf(p)[k] == p[i].1;
      assert es[i] == p[i];
    }
  }

  /** `{v: k for k, v in m.items()}` over the entries of `m`. */
  function Swapped(es: Entries): (s: Entries)
    ensures |s| == |es| && forall i :: 0 <= i < |es| ==> s[i] == (es[i].1, es[i].0)
  {
    seq(|es|, i requires 0 <= i < |es| => (es[i].1, es[i].0))
  }

  predicate DistinctKeys(es: Entries) {
    forall i, j :: 0 <= i < j < |es| ==> es[i].0 != es[j].0
  }

  /** With distinct keys, every entry is found as written. */
  lemma {:induction false} DictOfDistinct(es: Entries, i: nat)
    requires DistinctKeys(es) && i < |es|
    ensures es[i].0 in DictOf(es) && DictOf(es)[es[i].0] == es[i].1
    decreases |es|
  {
    var p := es[..|es| - 1];
    if i < |es| - 1 {
      assert p[i] == es[i];
      DictOfDistinct(p, i);
    }
  }

  /** Over entries with distinct keys and distinct labels the inverted dict undoes the dict, both ways. */
  lemma InverseRoundTrip(es: Entries)
    requires DistinctKeys(es) && DistinctKeys(Swapped(es))
    ensures forall k :: k in DictOf(es) ==> DictOf(es)[k] in DictOf(Swapped(es)) && DictOf(Swapped(es))[DictOf(es)[k]] == k
    ensures forall v :: v in DictOf(Swapped(es)) ==> DictOf(Swapped(es))[v] in DictOf(es) && DictOf(es)[DictOf(Swapped(es))[v]] == v
  {
    forall k | k in DictOf(es)
      ensures DictOf(es)[k] in DictOf(Swapped(es)) && DictOf(Swapped(es))[DictOf(es)[k]] == k
    {
      DictOfFromEntries(es, k);
      var i :| 0 <= i < |es| && es[i].0 == k && DictOf(es)[k] == es[i].1;
      DictOfDistinct(Swapped(es), i);
    }
    forall v | v in DictOf(Swapped(es))
      ensures DictOf(Swapped(es))[v] in DictOf(es) && DictOf(es)[DictOf(Swapped(es))[v]] == v
    {
      DictOfFromEntries(Swapped(es), v);
      var i :| 0 <= i < |es| && Swapped(es)[i].0 == v && DictOf(Swapped(es))[v] == Swapped(es)[i].1;
      DictOfDistinct(es, i);
    }
  }

  /** A four-entry dict literal, entry by entry. */
  lemma DictOfFour(a: (string, string), b: (string, string), c: (string, string), d: (string, string))
    ensures DictOf([a, b, c, d]) == map[a.0 := a.1][b.0 := b.1][c.0 := c.1][d.0 := d.1]
  {
    assert DictOf([a]) == map[a.0 := a.1] by {
      assert [a][..0] == [];
    }
    assert DictOf([a, b]) == map[a.0 := a.1][b.0 := b.1] by {
      assert [a, b][..1] == [a];
    }
    assert DictOf([a, b, c]) == map[a.0 := a.1][b.0 := b.1][c.0 := c.1] by {
      assert [a, b, c][..2] == [a, b];
    }
    assert [a, b, c, d][..3] == [a, b, c];
  }

  /** `get_status_maps`: the status map and its inverse. */
  function StatusMaps(): (maps: (map<string, string>, map<string, string>))
  {
    (DictOf(StatusEntries), DictOf(Swapped(StatusEntries)))
  }

  /** `get_approval_request_maps` */
  function ApprovalMap(): map<string, string> {
    DictOf(ApprovalEntries)
  }

  /** The four statuses and their labels. */
  lemma StatusMapContents()
    ensures StatusMaps().0 == map["Assigned" := "할 일", "Pending" := "검사 대기", "Approved" := "완료", "Rejected" := "반려"]
  {
    DictOfFour(StatusEntries[0], StatusEntries[1], StatusEntries[2], StatusEntries[3]);
    assert StatusEntries == [StatusEntries[0], StatusEntries[1], StatusEntries[2], StatusEntries[3]];
  }

  /** The inverse map: each label back to its status. */
  lemma StatusMapInvContents()
    ensures StatusMaps().1 == map["할 일" := "Assigned", "검사 대기" := "Pending", "완료" := "Approved", "반려" := "Rejected"]
  {
    var sw := Swapped(StatusEntries);
    assert sw == [("할 일", "Assigned"), ("검사 대기", "Pending"), ("완료", "Approved"), ("반려", "Rejected")];
    DictOfFour(("할 일", "Assigned"), ("검사 대기", "Pending"), ("완료", "Approved"), ("반려", "Rejected"));
  }

  /** The labels are distinct, so the inverse loses nothing: both maps have four entries. */
  lemma StatusMapsSizes()
    ensures |StatusMaps().0| == 4 && |StatusMaps().1| == 4
  {
    StatusMapContents();
    StatusMapInvContents();
    assert StatusMaps().0.Keys == {"Assigned", "Pending", "Approved", "Rejected"};
    assert StatusMaps().1.Keys == {"할 일", "검사 대기", "완료", "반려"};
    assert "Assigned"[1] != "Pending"[1] && "Assigned"[1] != "Approved"[1] && "Assigned"[0] != "Rejected"[0];
    assert "Pending"[0] != "Approved"[0] && "Pending"[0] != "Rejected"[0] && "Approved"[0] != "Rejected"[0];
    assert "할 일"[0] != "검사 대기"[0] && "할 일"[0] != "완료"[0] && "할 일"[0] != "반려"[0];
    assert "검사 대기"[0] != "완료"[0] && "검사 대기"[0] != "반려"[0] && "완료"[0] != "반려"[0];
  }

  /** The status map and its inverse undo each other, both ways. */
  lemma StatusMapsInverse()
    ensures forall k :: k in StatusMaps().0 ==> StatusMaps().0[k] in StatusMaps().1 && StatusMaps().1[StatusMaps().0[k]] == k
    ensures forall v :: v in StatusMaps().1 ==> StatusMaps().1[v] in StatusMaps().0 && StatusMaps().0[StatusMaps().1[v]] == v
  {
    var sw := Swapped(StatusEntries);
    assert sw == [("할 일", "Assigned"), ("검사 대기", "Pending"), ("완료", "Approved"), ("반려", "Rejected")];
    assert DistinctKeys(StatusEntries) by {
      assert "Assigned"[1] != "Pending"[1] && "Assigned"[1] != "Approved"[1] && "Assigned"[0] != "Rejected"[0];
      assert "Pending"[0] != "Approved"[0] && "Pending"[0] != "Rejected"[0] && "Approved"[0] != "Rejected"[0];
    }
    assert DistinctKeys(sw) by {
      assert "할 일"[0] != "검사 대기"[0] && "할 일"[0] != "완료"[0] && "할 일"[0] != "반려"[0];
      assert "검사 대기"[0] != "완료"[0] && "검사 대기"[0] != "반려"[0] && "완료"[0] != "반려"[0];
    }
    InverseRoundTrip(StatusEntries);
  }

  /** The approval labels: not yet requested, requested, and the finished labels shared with the status map. */
  lemma ApprovalMapContents()
    ensures ApprovalMap() == map["Assigned" := "미요청", "Pending" := "요청", "Approved" := "완료", "Rejected" := "반려"]
    ensures ApprovalMap()["Approved"] == StatusMaps().0["Approved"] && ApprovalMap()["Rejected"] == StatusMaps().0["Rejected"]
  {
    StatusMapContents();
    DictOfFour(ApprovalEntries[0], ApprovalEntries[1], ApprovalEntries[2], ApprovalEntries[3]);
    assert ApprovalEntries == [ApprovalEntries[0], ApprovalEntries[1], ApprovalEntries[2], ApprovalEntries[3]];
  }
}
