/**
 The ordered list of saved reviews of src/app/GameReviews.tsx. JavaScript
 compares the list's objects by reference when it deletes one, and every save
 stores a freshly allocated object, so each stored review is given an `id`
 at save time that stands for its identity: two entries are the same object
 exactly when their ids are equal.
 */
module ReviewList {
  import opened Draft

  /** A saved review: the object identity `id` and the field values. */
  datatype Entry = Entry(id: nat, review: Review)

  /** The ids strictly increase along the list. Ids are handed out in
      increasing order, so this says that the list is in insertion order;
      it also makes every id occur at most once. */
  predicate Ordered(rs: seq<Entry>)
  {
    forall i, j :: 0 <= i < j < |rs| ==> rs[i].id < rs[j].id
  }

  /** Every id in the list is below `n`, the next id to be handed out. */
  predicate IdsBelow(rs: seq<Entry>, n: nat)
  {
    forall e :: e in rs ==> e.id < n
  }

  /** Some entry of the list is the object with identity `id`. */
  predicate HasId(rs: seq<Entry>, id: nat)
  {
    exists e :: e in rs && e.id == id
  }

  /** `rs.filter(review => review !== target)` for the target of identity
      `id`: the entries that are not that object, in their original order. */
  function Remove(rs: seq<Entry>, id: nat): (r: seq<Entry>)
    ensures |r| <= |rs|
    ensures forall e :: e in r <==> e in rs && e.id != id
  {
    if |rs| == 0 then []
    else
      var rest := Remove(rs[1..], id);
      assert forall e :: e in rs <==> e == rs[0] || e in rs[1..] by {
        assert rs == [rs[0]] + rs[1..];
      }
      if rs[0].id == id then rest else [rs[0]] + rest
  }

  /** Filtering distributes over concatenation: removal never reorders. */
  lemma {:induction false} RemoveAppend(a: seq<Entry>, b: seq<Entry>, id: nat)
    ensures Remove(a + b, id) == Remove(a, id) + Remove(b, id)
    decreases |a|
  {
    if |a| == 0 {
      assert a + b == b;
    } else {
      assert (a + b)[1..] == a[1..] + b;
      RemoveAppend(a[1..], b, id);
    }
  }

  /** Removing an identity no entry has leaves the list unchanged. */
  lemma {:induction false} RemoveAbsent(rs: seq<Entry>, id: nat)
    requires !HasId(rs, id)
    ensures Remove(rs, id) == rs
    decreases |rs|
  {
    if |rs| > 0 {
      assert rs[0] in rs;
      assert !HasId(rs[1..], id) by {
        forall e | e in rs[1..] ensures e.id != id {
          assert e in rs;
        }
      }
      RemoveAbsent(rs[1..], id);
      assert rs == [rs[0]] + rs[1..];
    }
  }

  /** Removal keeps the list in insertion order. */
  lemma {:induction false} RemoveOrdered(rs: seq<Entry>, id: nat)
    requires Ordered(rs)
    ensures Ordered(Remove(rs, id))
    decreases |rs|
  {
    if |rs| > 0 {
      assert Ordered(rs[1..]);
      RemoveOrdered(rs[1..], id);
      var rest := Remove(rs[1..], id);
      if rs[0].id != id {
        assert Remove(rs, id) == [rs[0]] + rest;
        forall j | 0 <= j < |rest| ensures rs[0].id < rest[j].id {
          assert rest[j] in rs[1..];
          var k :| 0 <= k < |rs[1..]| && rs[1..][k] == rest[j];
          assert rs[k + 1] == rest[j];
        }
      }
    }
  }

  /** In an ordered list, deleting the entry at index `i` removes exactly that
      entry: the result is the list with position `i` cut out, so its length
      drops by one and the other entries keep their relative order. */
  lemma RemoveAt(rs: seq<Entry>, i: nat)
    requires Ordered(rs)
    requires i < |rs|
    ensures Remove(rs, rs[i].id) == rs[..i] + rs[i + 1..]
    ensures |Remove(rs, rs[i].id)| == |rs| - 1
  {
    var id := rs[i].id;
    var before, after := rs[..i], rs[i + 1..];
    OnlyAt(rs, i);
    assert rs == before + ([rs[i]] + after);
    RemoveAppend(before, [rs[i]] + after, id);
    RemoveAppend([rs[i]], after, id);
    assert Remove([rs[i]], id) == [] by {
      assert [rs[i]][1..] == [];
    }
    RemoveAbsent(before, id);
    RemoveAbsent(after, id);
  }

  /** In an ordered list no entry before or after index `i` has the identity
      of the entry at `i`. */
  lemma OnlyAt(rs: seq<Entry>, i: nat)
    requires Ordered(rs) && i < |rs|
    ensures !HasId(rs[..i], rs[i].id)
    ensures !HasId(rs[i + 1..], rs[i].id)
  {
  }

  /** Appending an entry whose id is above every id in the list keeps the
      list in insertion order, and every id below the next one. */
  lemma AppendFresh(rs: seq<Entry>, n: nat, d: Review)
    requires Ordered(rs) && IdsBelow(rs, n)
    ensures Ordered(rs + [Entry(n, d)])
    ensures IdsBelow(rs + [Entry(n, d)], n + 1)
  {
  }
}
