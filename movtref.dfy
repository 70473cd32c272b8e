/**
 * The per-track registry of track references (the `tref` box, Track
 * Reference Box, section 8.3.3 of ISO/IEC 14496-12): a flat array of
 * entries, each a four-character relationship tag with the ids of the
 * tracks it refers to.
 *
 * A pointer into the registry's array (`MOVTRef *`) is modelled as the
 * index of the entry; growing the array invalidates pointers in the
 * source, and an index is what survives such a growth.
 */
module MovTRef {
  import opened AvTypes

  /** One `MOVTRef`: a tag and its track ids (`nb_track_ids` is `|trackIds|`). */
  datatype TRef = TRef(tag: uint32, trackIds: seq<int>)

  /** The index of the first entry carrying `tag`, if any. */
  function FindIndex(s: seq<TRef>, tag: uint32): (r: Option<nat>)
    ensures r.Some? ==> r.value < |s| && s[r.value].tag == tag
    ensures r.Some? ==> forall j :: 0 <= j < r.value ==> s[j].tag != tag
    ensures r.None? <==> forall j :: 0 <= j < |s| ==> s[j].tag != tag
  {
    if s == [] then None
    else if s[0].tag == tag then Some(0)
    else match FindIndex(s[1..], tag)
      case None => None
      case Some(i) => Some(i + 1)
  }

  /** Tags are pairwise distinct: at most one entry per relationship. */
  ghost predicate TagsDistinct(s: seq<TRef>)
  {
    forall i, j :: 0 <= i < j < |s| ==> s[i].tag != s[j].tag
  }

  /** No track id occurs twice in one list. */
  ghost predicate IdsDistinct(ids: seq<int>)
  {
    forall i, j :: 0 <= i < j < |ids| ==> ids[i] != ids[j]
  }

  /** Every entry's id list is free of repetitions. */
  ghost predicate AllIdsDistinct(s: seq<TRef>)
  {
    forall i :: 0 <= i < |s| ==> IdsDistinct(s[i].trackIds)
  }

  /** The id list stored under `tag`, if an entry carries it. */
  function Lookup(s: seq<TRef>, tag: uint32): Option<seq<int>>
  {
    match FindIndex(s, tag)
    case None => None
    case Some(i) => Some(s[i].trackIds)
  }

  /** The id list under `tag`, empty when no entry carries it. */
  function IdsOf(s: seq<TRef>, tag: uint32): seq<int>
  {
    match Lookup(s, tag)
    case None => []
    case Some(ids) => ids
  }

  /** The entries after a successful `ff_mov_tref_find_or_add`. */
  function WithTag(s: seq<TRef>, tag: uint32): (r: seq<TRef>)
    ensures FindIndex(r, tag).Some?
  {
    if FindIndex(s, tag).Some? then s
    else FindIndexAppend(s, TRef(tag, []), tag); s + [TRef(tag, [])]
  }

  /** The entries after a successful `ff_mov_tref_add_one_track`. */
  function AddOne(s: seq<TRef>, tag: uint32, id: int): seq<TRef>
  {
    var w := WithTag(s, tag);
    var i := FindIndex(w, tag).value;
    if id in w[i].trackIds then w
    else w[i := TRef(tag, w[i].trackIds + [id])]
  }

  /** `MOVTRefs`: the count `nb_trefs` and the entries of the `trefs` array. */
  class TRefs {
    var nbTrefs: int
    var trefs: seq<TRef>

    /**
     * The count agrees with the array; `ff_mov_tref_free` and a failed
     * growth in `ff_mov_tref_find_or_add` break this.
     */
    ghost predicate Valid()
      reads this
    {
      nbTrefs == |trefs|
    }

    /** A zero-initialised `MOVTRefs`, as it sits in a freshly created track. */
    constructor ()
      ensures Valid() && trefs == []
    {
      nbTrefs := 0;
      trefs := [];
    }

    /** `ff_mov_tref_find`: linear scan with an early-exit test. */
    method Find(tag: uint32) returns (r: Option<nat>)
      requires Valid()
      ensures r == FindIndex(trefs, tag)
    {
      r := None;
      var i := 0;
      while i < nbTrefs && r.None?
        invariant 0 <= i <= nbTrefs
        invariant r.None? ==> forall j :: 0 <= j < i ==> trefs[j].tag != tag
        invariant r.Some? ==> r.value < |trefs| && trefs[r.value].tag == tag
        invariant r.Some? ==> forall j :: 0 <= j < r.value ==> trefs[j].tag != tag
      {
        if trefs[i].tag == tag {
          r := Some(i);
        }
        i := i + 1;
      }
    }

    /**
     * `ff_mov_tref_alloc`: grow entry `i`'s id list by `n` slots and return
     * the first new slot. The new slots are uninitialised (their values are
     * not specified); `allocOk` is the outcome of the reallocation. On
     * failure the source frees the id array but keeps `nb_track_ids`: the
     * list's length (that count) is promised, its contents are not.
     */
    method Alloc(i: nat, n: int, allocOk: bool) returns (ret: int, slot: Option<nat>)
      requires Valid() && i < |trefs| && n >= 0
      modifies this
      ensures Valid() && |trefs| == old(|trefs|)
      ensures forall j :: 0 <= j < |trefs| && j != i ==> trefs[j] == old(trefs[j])
      ensures trefs[i].tag == old(trefs[i].tag)
      ensures allocOk ==> ret == 0 && slot == Some(old(|trefs[i].trackIds|))
      ensures allocOk ==> |trefs[i].trackIds| == old(|trefs[i].trackIds|) + n
      ensures allocOk ==> trefs[i].trackIds[..old(|trefs[i].trackIds|)] == old(trefs[i].trackIds)
      ensures !allocOk ==> ret == AVERROR(ENOMEM) && slot.None?
      ensures !allocOk ==> |trefs[i].trackIds| == old(|trefs[i].trackIds|)
    {
      slot := None;
      if allocOk {
        var e := trefs[i];
        slot := Some(|e.trackIds|);
        trefs := trefs[i := TRef(e.tag, e.trackIds + seq(n, _ => 0))];
        ret := 0;
      } else {
        ret := AVERROR(ENOMEM);
      }
    }

    /**
     * `ff_mov_tref_find_or_add`: the entry for `tag`, appended empty when
     * missing. `allocOk` is the outcome of growing the array; it matters
     * only when the tag is new. A failed `av_reallocp_array` frees the
     * array and leaves it NULL while `nb_trefs` keeps its old value, so
     * after a failure the registry is consistent only if it was empty.
     */
    method FindOrAdd(tag: uint32, allocOk: bool) returns (ret: int, r: Option<nat>)
      requires Valid()
      modifies this
      ensures ret == 0 <==> FindIndex(old(trefs), tag).Some? || allocOk
      ensures ret == 0 ==> Valid()
      ensures ret != 0 ==> ret == AVERROR(ENOMEM) && r.None? && trefs == [] && nbTrefs == old(nbTrefs)
      ensures ret == 0 ==> trefs == WithTag(old(trefs), tag) && r == FindIndex(trefs, tag)
      ensures ret == 0 && FindIndex(old(trefs), tag).Some? ==>
        trefs == old(trefs) && r == FindIndex(old(trefs), tag)
      ensures ret == 0 && FindIndex(old(trefs), tag).None? ==>
        |trefs| == old(|trefs|) + 1 && trefs[..old(|trefs|)] == old(trefs) &&
        trefs[old(|trefs|)] == TRef(tag, []) && r == Some(old(|trefs|))
      ensures ret == 0 && TagsDistinct(old(trefs)) ==> TagsDistinct(trefs)
    {
      var found := Find(tag);
      r := None;
      // The source scans a second time; the first scan already settled it.
      var i := 0;
      while i < nbTrefs && found.None?
        invariant 0 <= i <= nbTrefs
        invariant found == FindIndex(trefs, tag)
      {
        if trefs[i].tag == tag {
          found := Some(i);
        }
        i := i + 1;
      }
      if found.None? {
        if !allocOk {
          trefs := [];
          return AVERROR(ENOMEM), None;
        }
        found := Some(nbTrefs);
        trefs := trefs + [TRef(tag, [])];
        nbTrefs := nbTrefs + 1;
        FindIndexAppend(old(trefs), TRef(tag, []), tag);
      }
      r := found;
      ret := 0;
    }

    /**
     * `ff_mov_tref_add_one_track`: add `trackId` under `tag` unless it is
     * already there. `growTrefsOk` and `growIdsOk` are the outcomes of the
     * two reallocations the call may perform. A failed append frees the
     * entry's id array but keeps `nb_track_ids`; the model's id list stands
     * for that count, and its contents after the failure are not specified.
     */
    method AddOneTrack(tag: uint32, trackId: int, growTrefsOk: bool, growIdsOk: bool)
      returns (ret: int)
      requires Valid()
      modifies this
      ensures FindIndex(old(trefs), tag).None? && !growTrefsOk ==>
        ret == AVERROR(ENOMEM) && trefs == [] && nbTrefs == old(nbTrefs)
      ensures FindIndex(old(trefs), tag).Some? || growTrefsOk ==> Valid()
      ensures FindIndex(old(trefs), tag).Some? || growTrefsOk ==>
        var w := WithTag(old(trefs), tag);
        var i := FindIndex(w, tag).value;
        && (ret == 0 <==> trackId in w[i].trackIds || growIdsOk)
        && (ret == 0 ==> trefs == AddOne(old(trefs), tag, trackId))
        && (ret != 0 ==> ret == AVERROR(ENOMEM) && |trefs| == |w| && trefs[i].tag == tag &&
                         |trefs[i].trackIds| == |w[i].trackIds| &&
                         forall j :: 0 <= j < |w| && j != i ==> trefs[j] == w[j])
    {
      var r;
      ret, r := FindOrAdd(tag, growTrefsOk);
      if ret < 0 {
        return;
      }
      var t := r.value;
      ghost var w := trefs;
      assert w == WithTag(old(trefs), tag) && t == FindIndex(w, tag).value;
      var exists_ := HasTrackId(t, trackId);
      if !exists_ {
        ret := AppendTrackId(t, trackId, growIdsOk);
      }
      assert ret == 0 ==> trefs == AddOne(old(trefs), tag, trackId);
    }

    /**
     * The append of `ff_mov_tref_add_one_track`: one more id slot for
     * entry `t` through `ff_mov_tref_alloc`, then `trackId` stored in it.
     */
    method AppendTrackId(t: nat, trackId: int, growIdsOk: bool) returns (ret: int)
      requires Valid() && t < |trefs|
      modifies this
      ensures Valid() && |trefs| == old(|trefs|) && trefs[t].tag == old(trefs[t].tag)
      ensures forall j :: 0 <= j < |trefs| && j != t ==> trefs[j] == old(trefs[j])
      ensures ret == 0 <==> growIdsOk
      ensures ret == 0 ==> trefs == old(trefs)[t := TRef(old(trefs[t].tag), old(trefs[t].trackIds) + [trackId])]
      ensures ret != 0 ==> ret == AVERROR(ENOMEM) && |trefs[t].trackIds| == old(|trefs[t].trackIds|)
    {
      var slot;
      ret, slot := Alloc(t, 1, growIdsOk);
      if ret >= 0 {
        var e := trefs[t];
        trefs := trefs[t := TRef(e.tag, e.trackIds[slot.value := trackId])];
        assert trefs[t].trackIds == old(trefs[t].trackIds) + [trackId];
      }
    }

    /** The scan of `ff_mov_tref_add_one_track` over entry `t`'s ids, with an early exit. */
    method HasTrackId(t: nat, trackId: int) returns (exists_: bool)
      requires t < |trefs|
      ensures exists_ <==> trackId in trefs[t].trackIds
    {
      exists_ := false;
      var i := 0;
      while i < |trefs[t].trackIds| && !exists_
        invariant 0 <= i <= |trefs[t].trackIds|
        invariant exists_ <==> trackId in trefs[t].trackIds[..i]
      {
        if trefs[t].trackIds[i] == trackId {
          exists_ := true;
        }
        i := i + 1;
      }
      assert exists_ <==> trackId in trefs[t].trackIds by {
        if !exists_ {
          assert trefs[t].trackIds[..i] == trefs[t].trackIds;
        }
      }
    }

    /**
     * `ff_mov_tref_free`: release every id list, then the array. The count
     * `nb_trefs` is left as it was, so the registry is consistent afterwards
     * only if it was empty, and a second call would read freed memory.
     */
    method Free()
      requires Valid()
      modifies this
      ensures trefs == [] && nbTrefs == old(nbTrefs)
      ensures Valid() <==> old(nbTrefs) == 0
    {
      // Each step stands for the `av_freep` of one entry's id array.
      var i := 0;
      while i < nbTrefs
        invariant 0 <= i <= nbTrefs == |trefs|
        invariant nbTrefs == old(nbTrefs)
      {
        trefs := trefs[i := TRef(trefs[i].tag, [])];
        i := i + 1;
      }
      trefs := [];
    }
  }

  /** Appending an entry with `tag` to a sequence without it makes it the first match. */
  lemma FindIndexAppend(s: seq<TRef>, e: TRef, tag: uint32)
    requires FindIndex(s, tag).None? && e.tag == tag
    ensures FindIndex(s + [e], tag) == Some(|s|)
  {
    assert (s + [e])[|s|].tag == tag;
    assert forall j :: 0 <= j < |s| ==> (s + [e])[j] == s[j];
  }

  /** Entries with the same tags at the same positions are found alike. */
  lemma {:induction false} FindIndexSameTags(s: seq<TRef>, t: seq<TRef>, tag: uint32)
    requires |s| == |t| && forall j :: 0 <= j < |s| ==> s[j].tag == t[j].tag
    ensures FindIndex(s, tag) == FindIndex(t, tag)
  {
    if s != [] && s[0].tag != tag {
      FindIndexSameTags(s[1..], t[1..], tag);
    }
  }

  /** Appending an entry with another tag does not change any lookup of `tag`. */
  lemma FindIndexAppendOther(s: seq<TRef>, e: TRef, tag: uint32)
    requires e.tag != tag
    ensures FindIndex(s + [e], tag) == FindIndex(s, tag)
  {
    var r := FindIndex(s + [e], tag);
    var q := FindIndex(s, tag);
    if r.Some? {
      assert (s + [e])[r.value] == s[r.value];
    }
    if q.Some? {
      assert (s + [e])[q.value] == s[q.value];
    }
  }

  /**
   * `find_or_add` keeps tags and id lists distinct and always leaves an
   * entry for the tag; it changes nothing when the tag is present.
   */
  lemma WithTagProperties(s: seq<TRef>, tag: uint32)
    ensures FindIndex(WithTag(s, tag), tag).Some?
    ensures FindIndex(s, tag).Some? ==> WithTag(s, tag) == s
    ensures TagsDistinct(s) ==> TagsDistinct(WithTag(s, tag))
    ensures AllIdsDistinct(s) ==> AllIdsDistinct(WithTag(s, tag))
  {
    if FindIndex(s, tag).None? {
      FindIndexAppend(s, TRef(tag, []), tag);
    }
  }

  /** `find_or_add` never changes the id list found under any other tag. */
  lemma WithTagKeepsOtherTags(s: seq<TRef>, tag: uint32, t: uint32)
    requires t != tag
    ensures Lookup(WithTag(s, tag), t) == Lookup(s, t)
  {
    if FindIndex(s, tag).None? {
      FindIndexAppendOther(s, TRef(tag, []), t);
      var q := FindIndex(s, t);
      if q.Some? {
        assert (s + [TRef(tag, [])])[q.value] == s[q.value];
      }
    }
  }

  /** The id list under `tag` after `add_one_track`: the old one, with `id` appended if it was absent. */
  lemma AddOneIds(s: seq<TRef>, tag: uint32, id: int)
    ensures Lookup(AddOne(s, tag, id), tag) ==
      Some(if id in IdsOf(s, tag) then IdsOf(s, tag) else IdsOf(s, tag) + [id])
    ensures id in Lookup(AddOne(s, tag, id), tag).value
  {
    WithTagProperties(s, tag);
    var w := WithTag(s, tag);
    var i := FindIndex(w, tag).value;
    assert w[i].trackIds == IdsOf(s, tag) by {
      if FindIndex(s, tag).None? {
        FindIndexAppend(s, TRef(tag, []), tag);
      }
    }
    if id !in w[i].trackIds {
      var a := w[i := TRef(tag, w[i].trackIds + [id])];
      FindIndexSameTags(w, a, tag);
    }
  }

  /** `add_one_track` leaves every other tag's id list exactly as it was. */
  lemma AddOneKeepsOtherTags(s: seq<TRef>, tag: uint32, id: int, t: uint32)
    requires t != tag
    ensures Lookup(AddOne(s, tag, id), t) == Lookup(s, t)
  {
    WithTagProperties(s, tag);
    WithTagKeepsOtherTags(s, tag, t);
    var w := WithTag(s, tag);
    var i := FindIndex(w, tag).value;
    if id !in w[i].trackIds {
      var a := w[i := TRef(tag, w[i].trackIds + [id])];
      FindIndexSameTags(w, a, t);
      var q := FindIndex(w, t);
      if q.Some? {
        assert q.value != i;
      }
    }
  }

  /** Adding the same id twice has the effect of adding it once. */
  lemma AddOneIdempotent(s: seq<TRef>, tag: uint32, id: int)
    ensures AddOne(AddOne(s, tag, id), tag, id) == AddOne(s, tag, id)
  {
    var a := AddOne(s, tag, id);
    AddOneIds(s, tag, id);
    WithTagProperties(a, tag);
    assert WithTag(a, tag) == a;
    var i := FindIndex(a, tag).value;
    assert id in a[i].trackIds;
  }

  /**
   * `add_one_track` keeps tags distinct and id lists free of repetitions,
   * so the id it adds occurs exactly once in its list.
   */
  lemma AddOnePreservesDistinct(s: seq<TRef>, tag: uint32, id: int)
    requires TagsDistinct(s) && AllIdsDistinct(s)
    ensures TagsDistinct(AddOne(s, tag, id)) && AllIdsDistinct(AddOne(s, tag, id))
    ensures multiset(IdsOf(AddOne(s, tag, id), tag))[id] == 1
  {
    WithTagProperties(s, tag);
    var w := WithTag(s, tag);
    var i := FindIndex(w, tag).value;
    var a := AddOne(s, tag, id);
    if id !in w[i].trackIds {
      var ids := w[i].trackIds + [id];
      assert IdsDistinct(ids) by {
        forall p, q | 0 <= p < q < |ids| ensures ids[p] != ids[q] {
          if q == |ids| - 1 {
            assert ids[p] == w[i].trackIds[p];
          }
        }
      }
      assert forall j :: 0 <= j < |a| ==> a[j].tag == w[j].tag;
    }
    AddOneIds(s, tag, id);
    var final := IdsOf(a, tag);
    assert IdsDistinct(final) by {
      var k := FindIndex(a, tag).value;
      assert final == a[k].trackIds;
    }
    DistinctOccursOnce(final, id);
  }

  /** A value of a repetition-free list occurs in it exactly once. */
  lemma {:induction false} DistinctOccursOnce(ids: seq<int>, id: int)
    requires IdsDistinct(ids) && id in ids
    ensures multiset(ids)[id] == 1
  {
    assert ids == [ids[0]] + ids[1..];
    if ids[0] == id {
      assert id !in ids[1..];
    } else {
      DistinctOccursOnce(ids[1..], id);
    }
  }

  /**
   * A track references tracks 1 and 2 under "cdsc"; adding 2 again changes
   * nothing, adding 3 appends it.
   */
  lemma CdscScenario()
    ensures
      var cdsc: uint32 := 0x63647363;
      var s := AddOne(AddOne([], cdsc, 1), cdsc, 2);
      && IdsOf(s, cdsc) == [1, 2]
      && IdsOf(AddOne(s, cdsc, 2), cdsc) == [1, 2]
      && IdsOf(AddOne(AddOne(s, cdsc, 2), cdsc, 3), cdsc) == [1, 2, 3]
  {
    var cdsc: uint32 := 0x63647363;
    assert FindIndex([TRef(cdsc, [])], cdsc) == Some(0);
    assert WithTag([], cdsc) == [TRef(cdsc, [])];
    assert [] + [1] == [1];
    assert AddOne([], cdsc, 1) == [TRef(cdsc, [1])];
    var s1 := [TRef(cdsc, [1])];
    assert FindIndex(s1, cdsc) == Some(0);
    assert WithTag(s1, cdsc) == s1;
    assert [1] + [2] == [1, 2];
    assert AddOne(s1, cdsc, 2) == [TRef(cdsc, [1, 2])];
    var s := [TRef(cdsc, [1, 2])];
    assert FindIndex(s, cdsc) == Some(0);
    assert WithTag(s, cdsc) == s;
    assert 2 in s[0].trackIds;
    assert AddOne(s, cdsc, 2) == s;
    assert [1, 2] + [3] == [1, 2, 3];
    assert AddOne(s, cdsc, 3) == [TRef(cdsc, [1, 2, 3])];
    assert FindIndex([TRef(cdsc, [1, 2, 3])], cdsc) == Some(0);
  }
}
