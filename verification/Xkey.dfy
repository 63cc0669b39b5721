/** The secondary index: two dictionaries of heads, cross-linked tag records,
    and three bounded pools of recycled heads and records. */
module Xkey {
  import opened XkeyIndex
  import opened XkeyPool

  class Index {
    var hashtree: map<int, HashHead>
    var octree: map<ObjCore, OcHead>

    var hashheads: seq<HashHead>
    var nHashhead: int
    var ocheads: seq<OcHead>
    var nOchead: int
    var ocs: seq<XkeyOc>
    var nOc: int

    /** Every tag in the index, in the order of tagging. */
    ghost var entries: seq<Entry>
    /** What has been allocated and not yet freed. */
    ghost var ownHash: set<HashHead>
    ghost var ownOch: set<OcHead>
    ghost var ownOc: set<XkeyOc>

    /** The digest side: each head lists exactly the records of its digest. */
    ghost predicate Hashed(es: seq<Entry>)
      reads `hashtree, `ownHash, `ownOc, ownHash`digest, ownHash`ocs, ownOc`hashhead
    {
      && (forall d :: d in hashtree ==>
            hashtree[d] in ownHash && hashtree[d].digest == d && hashtree[d].ocs == ByDigest(es, d))
      && (forall i :: 0 <= i < |es| ==>
            es[i].oc in ownOc && es[i].digest in hashtree && es[i].oc.hashhead == hashtree[es[i].digest])
    }

    /** The object side: each head lists exactly the records of its object. */
    ghost predicate Objected(es: seq<Entry>)
      reads `octree, `ownOch, `ownOc, ownOch`ptr, ownOch`ocs, ownOc`objcore
    {
      && (forall o :: o in octree ==>
            octree[o] in ownOch && octree[o].ptr == o && octree[o].ocs == ByObject(es, o))
      && (forall i :: 0 <= i < |es| ==>
            es[i].oc in ownOc && es[i].obj in octree && es[i].oc.objcore == es[i].obj)
    }

    ghost predicate HashPool(live: set<HashHead>)
      reads `hashheads, `nHashhead, `ownHash, ownHash`ocs
    {
      && Conserved(hashheads, nHashhead, live, ownHash)
      && forall h :: h in hashheads ==> h in ownHash && h.ocs == []
    }

    ghost predicate OchPool(live: set<OcHead>)
      reads `ocheads, `nOchead, `ownOch, ownOch`ocs
    {
      && Conserved(ocheads, nOchead, live, ownOch)
      && forall h :: h in ocheads ==> h in ownOch && h.ocs == []
    }

    ghost predicate OcPool(live: set<XkeyOc>)
      reads `ocs, `nOc, `ownOc, ownOc`hashhead, ownOc`objcore
    {
      && Conserved(ocs, nOc, live, ownOc)
      && forall x :: x in ocs ==> x in ownOc && x.objcore == null && x.hashhead == null
    }

    ghost predicate Pooled(live: set<XkeyOc>)
      reads `hashtree, `hashheads, `nHashhead, `ownHash, ownHash`ocs
      reads `octree, `ocheads, `nOchead, `ownOch, ownOch`ocs
      reads `ocs, `nOc, `ownOc, ownOc`hashhead, ownOc`objcore
    {
      HashPool(hashtree.Values) && OchPool(octree.Values) && OcPool(live)
    }

    /** The lists alone: what a lookup relies on. */
    ghost predicate Listing()
      reads `entries, `hashtree, `octree, `ownHash, `ownOch, `ownOc
      reads ownHash`digest, ownHash`ocs, ownOch`ptr, ownOch`ocs, ownOc`hashhead, ownOc`objcore
    {
      Hashed(entries) && Objected(entries) && Tight(hashtree.Keys, octree.Keys, entries)
    }

    ghost predicate Valid()
      reads `entries
      reads `hashtree, `hashheads, `nHashhead, `ownHash, ownHash`digest, ownHash`ocs
      reads `octree, `ocheads, `nOchead, `ownOch, ownOch`ptr, ownOch`ocs
      reads `ocs, `nOc, `ownOc, ownOc`hashhead, ownOc`objcore
    {
      Distinct(entries) && Hashed(entries) && Objected(entries) && Pooled(Records(entries))
          && Tight(hashtree.Keys, octree.Keys, entries)
    }

    constructor ()
      ensures Valid() && entries == [] && ownHash == {} && ownOch == {} && ownOc == {}
    {
      hashtree, octree := map[], map[];
      hashheads, nHashhead, ocheads, nOchead, ocs, nOc := [], 0, [], 0, [], 0;
      entries, ownHash, ownOch, ownOc := [], {}, {}, {};
    }

    /** xkey_hashhead_new. */
    method HashheadNew(ghost live: set<HashHead>) returns (head: HashHead)
      requires HashPool(live)
      modifies `hashheads, `nHashhead, `ownHash
      ensures HashPool(live + {head}) && head !in live && head.ocs == [] && nHashhead < POOL_MAX
      ensures old(ownHash) <= ownHash && (forall x :: x in ownHash ==> x in old(ownHash) || fresh(x))
          && (head in old(ownHash) || fresh(head))
      ensures if old(nHashhead) > 0
              then
                && |old(hashheads)| > 0 && head == old(hashheads)[0]
                && hashheads == old(hashheads)[1..] && nHashhead == old(nHashhead) - 1
              else fresh(head) && hashheads == old(hashheads) && nHashhead == old(nHashhead)
    {
      if 0 < nHashhead {
        Taken(hashheads, nHashhead, live, ownHash);
        head := hashheads[0];
        hashheads := hashheads[1..];
        nHashhead := nHashhead - 1;
      } else {
        head := new HashHead();
        Allocated(hashheads, nHashhead, live, ownHash, head);
        ownHash := ownHash + {head};
      }
    }

    /** xkey_hashhead_delete: into the pool while there is room, else freed. */
    method HashheadDelete(head: HashHead, ghost live: set<HashHead>)
      requires HashPool(live + {head}) && head !in live && head.ocs == []
      modifies `hashheads, `nHashhead, `ownHash, head`digest
      ensures HashPool(live)
      ensures ownHash == if old(nHashhead) < POOL_MAX then old(ownHash) else old(ownHash) - {head}
    {
      if nHashhead < POOL_MAX {
        head.digest := 0;
        Given(hashheads, nHashhead, live, ownHash, head);
        hashheads := [head] + hashheads;
        nHashhead := nHashhead + 1;
      } else {
        Freed(hashheads, nHashhead, live, ownHash, head);
        ownHash := ownHash - {head};
      }
    }

    /** xkey_ochead_new. */
    method OcheadNew(ghost live: set<OcHead>) returns (head: OcHead)
      requires OchPool(live)
      modifies `ocheads, `nOchead, `ownOch
      ensures OchPool(live + {head}) && head !in live && head.ocs == [] && nOchead < POOL_MAX
      ensures old(ownOch) <= ownOch && (forall x :: x in ownOch ==> x in old(ownOch) || fresh(x))
          && (head in old(ownOch) || fresh(head))
      ensures if old(nOchead) > 0
              then
                && |old(ocheads)| > 0 && head == old(ocheads)[0]
                && ocheads == old(ocheads)[1..] && nOchead == old(nOchead) - 1
              else fresh(head) && ocheads == old(ocheads) && nOchead == old(nOchead)
    {
      if 0 < nOchead {
        Taken(ocheads, nOchead, live, ownOch);
        head := ocheads[0];
        ocheads := ocheads[1..];
        nOchead := nOchead - 1;
      } else {
        head := new OcHead();
        Allocated(ocheads, nOchead, live, ownOch, head);
        ownOch := ownOch + {head};
      }
    }

    /** xkey_ochead_delete. */
    method OcheadDelete(head: OcHead, ghost live: set<OcHead>)
      requires OchPool(live + {head}) && head !in live && head.ocs == []
      modifies `ocheads, `nOchead, `ownOch, head`ptr
      ensures OchPool(live)
      ensures ownOch == if old(nOchead) < POOL_MAX then old(ownOch) else old(ownOch) - {head}
    {
      if nOchead < POOL_MAX {
        head.ptr := null;
        Given(ocheads, nOchead, live, ownOch, head);
        ocheads := [head] + ocheads;
        nOchead := nOchead + 1;
      } else {
        Freed(ocheads, nOchead, live, ownOch, head);
        ownOch := ownOch - {head};
      }
    }

    /** xkey_oc_new. */
    method OcNew(ghost live: set<XkeyOc>) returns (oc: XkeyOc)
      requires OcPool(live)
      modifies `ocs, `nOc, `ownOc
      ensures OcPool(live + {oc}) && oc !in live && oc.objcore == null && oc.hashhead == null
      ensures old(ownOc) <= ownOc && (forall x :: x in ownOc ==> x in old(ownOc) || fresh(x))
          && (oc in old(ownOc) || fresh(oc))
      ensures if old(nOc) > 0
              then
                && |old(ocs)| > 0 && oc == old(ocs)[0]
                && ocs == old(ocs)[1..] && nOc == old(nOc) - 1
              else fresh(oc) && ocs == old(ocs) && nOc == old(nOc)
    {
      if 0 < nOc {
        Taken(ocs, nOc, live, ownOc);
        oc := ocs[0];
        ocs := ocs[1..];
        nOc := nOc - 1;
      } else {
        oc := new XkeyOc();
        Allocated(ocs, nOc, live, ownOc, oc);
        ownOc := ownOc + {oc};
      }
    }

    /** xkey_oc_delete. */
    method OcDelete(oc: XkeyOc, ghost live: set<XkeyOc>)
      requires OcPool(live + {oc}) && oc !in live && oc.objcore == null && oc.hashhead == null
      modifies `ocs, `nOc, `ownOc
      ensures OcPool(live)
      ensures ownOc == if old(nOc) < POOL_MAX then old(ownOc) else old(ownOc) - {oc}
    {
      if nOc < POOL_MAX {
        Given(ocs, nOc, live, ownOc, oc);
        ocs := [oc] + ocs;
        nOc := nOc + 1;
      } else {
        Freed(ocs, nOc, live, ownOc, oc);
        ownOc := ownOc - {oc};
      }
    }

    /** xkey_hashtree_lookup. */
    method HashtreeLookup(digest: int) returns (head: HashHead?)
      requires Listing()
      ensures (head == null) == (ByDigest(entries, digest) == [])
      ensures head != null ==> head.ocs == ByDigest(entries, digest)
    {
      head := null;
      if digest in hashtree {
        head := hashtree[digest];
      } else {
        Untagged(entries, digest);
      }
    }

    /** xkey_octree_lookup. */
    method OctreeLookup(o: ObjCore) returns (head: OcHead?)
      requires Valid()
      ensures (head == null) == (ByObject(entries, o) == [])
      ensures head != null ==> o in octree && octree[o] == head
    {
      head := null;
      if o in octree {
        head := octree[o];
      } else {
        Unowned(entries, o);
      }
    }

    /** VRB_INSERT into the tree of digests: the head already there, or null when
        `head` went in. */
    method HashtreeAdd(head: HashHead) returns (key: HashHead?)
      requires Hashed(entries) && HashPool(hashtree.Values + {head}) && head !in hashtree.Values && head.ocs == []
      modifies `hashtree
      ensures Hashed(entries)
      ensures if head.digest in old(hashtree) then hashtree == old(hashtree) && key == hashtree[head.digest]
              else
                && key == null && hashtree == old(hashtree)[head.digest := head]
                && hashtree.Values == old(hashtree.Values) + {head}
    {
      key := null;
      if head.digest in hashtree {
        key := hashtree[head.digest];
      } else {
        Untagged(entries, head.digest);
        ValuesWith(hashtree, head.digest, head);
        hashtree := hashtree[head.digest := head];
      }
    }

    /** A spare head carrying `digest`, not yet in the tree. */
    method HashheadFor(digest: int) returns (head: HashHead)
      requires Hashed(entries) && HashPool(hashtree.Values)
      modifies `hashheads, `nHashhead, `ownHash, ownHash`digest
      ensures Hashed(entries) && HashPool(hashtree.Values + {head}) && head !in hashtree.Values
      ensures head.digest == digest && head.ocs == [] && nHashhead < POOL_MAX
      ensures old(ownHash) <= ownHash && (forall x :: x in ownHash ==> x in old(ownHash) || fresh(x))
          && (head in old(ownHash) || fresh(head))
    {
      HasValues(hashtree);
      head := HashheadNew(hashtree.Values);
      head.digest := digest;
    }

    /** xkey_hashtree_insert: the head of the digest, a new empty one if it has
        none; the spare head goes back to the pool when there was one. */
    method HashtreeInsert(digest: int) returns (head: HashHead)
      requires Hashed(entries) && HashPool(hashtree.Values)
      modifies `hashtree, `hashheads, `nHashhead, `ownHash, ownHash`digest
      ensures Hashed(entries) && HashPool(hashtree.Values)
      ensures hashtree == old(hashtree)[digest := head]
      ensures digest in old(hashtree) ==> head == old(hashtree)[digest] && hashtree == old(hashtree)
      ensures digest !in old(hashtree) ==> head.ocs == []
      ensures old(ownHash) <= ownHash && (forall x :: x in ownHash ==> x in old(ownHash) || fresh(x))
          && (head in old(ownHash) || fresh(head))
    {
      HasValues(hashtree);
      head := HashheadFor(digest);
      var key := HashtreeAdd(head);
      if key != null {
        HashheadDelete(head, hashtree.Values);
        head := key;
      }
    }

    /** VRB_INSERT into the tree of objects. */
    method OctreeAdd(head: OcHead, o: ObjCore) returns (key: OcHead?)
      requires head.ptr == o
      requires Objected(entries) && OchPool(octree.Values + {head}) && head !in octree.Values && head.ocs == []
      modifies `octree
      ensures Objected(entries)
      ensures if o in old(octree) then octree == old(octree) && key == octree[o]
              else key == null && octree == old(octree)[o := head] && octree.Values == old(octree.Values) + {head}
    {
      key := null;
      if o in octree {
        key := octree[o];
      } else {
        Unowned(entries, o);
        ValuesWith(octree, o, head);
        octree := octree[o := head];
      }
    }

    /** A spare head carrying the pointer `o`, not yet in the tree. */
    method OcheadFor(o: ObjCore) returns (head: OcHead)
      requires Objected(entries) && OchPool(octree.Values)
      modifies `ocheads, `nOchead, `ownOch, ownOch`ptr
      ensures Objected(entries) && OchPool(octree.Values + {head}) && head !in octree.Values
      ensures head.ptr == o && head.ocs == [] && nOchead < POOL_MAX
      ensures old(ownOch) <= ownOch && (forall x :: x in ownOch ==> x in old(ownOch) || fresh(x))
          && (head in old(ownOch) || fresh(head))
    {
      HasValues(octree);
      head := OcheadNew(octree.Values);
      head.ptr := o;
    }

    /** xkey_octree_insert. */
    method OctreeInsert(o: ObjCore) returns (head: OcHead)
      requires Objected(entries) && OchPool(octree.Values)
      modifies `octree, `ocheads, `nOchead, `ownOch, ownOch`ptr
      ensures Objected(entries) && OchPool(octree.Values)
      ensures octree == old(octree)[o := head]
      ensures o in old(octree) ==> head == old(octree)[o] && octree == old(octree)
      ensures o !in old(octree) ==> head.ocs == []
      ensures old(ownOch) <= ownOch && (forall x :: x in ownOch ==> x in old(ownOch) || fresh(x))
          && (head in old(ownOch) || fresh(head))
    {
      HasValues(octree);
      head := OcheadFor(o);
      var key := OctreeAdd(head, o);
      if key != null {
        OcheadDelete(head, octree.Values);
        head := key;
      }
    }

    twostate lemma LinkHashed(e: Entry)
      requires old(Hashed(entries)) && Distinct(old(entries)) && entries == old(entries) + [e]
          && e.oc !in Records(old(entries))
      requires hashtree == old(hashtree) && ownHash == old(ownHash) && ownOc == old(ownOc)
      requires e.oc in ownOc && e.digest in hashtree && e.oc.hashhead == hashtree[e.digest]
      requires forall h :: h in ownHash ==>
            h.digest == old(h.digest) && h.ocs == if h == hashtree[e.digest] then old(h.ocs) + [e.oc] else old(h.ocs)
      requires forall x :: x in ownOc && x != e.oc ==> x.hashhead == old(x.hashhead)
      ensures Hashed(entries)
    {
      AppendEntry(old(entries), e);
      assert forall i :: 0 <= i < |old(entries)| ==> old(entries)[i].oc in Records(old(entries));
    }

    twostate lemma LinkObjected(e: Entry)
      requires old(Objected(entries)) && Distinct(old(entries)) && entries == old(entries) + [e]
          && e.oc !in Records(old(entries))
      requires octree == old(octree) && ownOch == old(ownOch) && ownOc == old(ownOc)
      requires e.oc in ownOc && e.obj in octree && e.oc.objcore == e.obj
      requires forall h :: h in ownOch ==>
            h.ptr == old(h.ptr) && h.ocs == if h == octree[e.obj] then old(h.ocs) + [e.oc] else old(h.ocs)
      requires forall x :: x in ownOc && x != e.oc ==> x.objcore == old(x.objcore)
      ensures Objected(entries)
    {
      AppendEntry(old(entries), e);
      assert forall i :: 0 <= i < |old(entries)| ==> old(entries)[i].oc in Records(old(entries));
    }

    /** The writes at the end of xkey_insert. */
    method Hook(ochead: OcHead, hashhead: HashHead, oc: XkeyOc, o: ObjCore)
      modifies ochead`ocs, hashhead`ocs, oc`hashhead, oc`objcore
      ensures ochead.ocs == old(ochead.ocs) + [oc] && hashhead.ocs == old(hashhead.ocs) + [oc]
      ensures oc.objcore == o && oc.hashhead == hashhead
    {
      ochead.ocs := ochead.ocs + [oc];
      hashhead.ocs := hashhead.ocs + [oc];
      oc.objcore := o;
      oc.hashhead := hashhead;
    }

    /** The tail of xkey_insert: the record goes to the end of both lists. */
    method Link(ochead: OcHead, hashhead: HashHead, oc: XkeyOc, o: ObjCore, digest: int)
      requires Distinct(entries) && Hashed(entries) && Objected(entries) && oc in ownOc && oc !in Records(entries)
      requires digest in hashtree && hashtree[digest] == hashhead && o in octree && octree[o] == ochead
      modifies `entries, ochead`ocs, hashhead`ocs, oc`hashhead, oc`objcore
      ensures Distinct(entries) && Hashed(entries) && Objected(entries)
      ensures entries == old(entries) + [Entry(oc, o, digest)] && Records(entries) == old(Records(entries)) + {oc}
    {
      ghost var e := Entry(oc, o, digest);
      RecordsAppend(entries, e);
      Hook(ochead, hashhead, oc, o);
      entries := entries + [e];
      LinkHashed(e);
      LinkObjected(e);
    }

    /** A spare record, beside an intact index. */
    method OcFor() returns (oc: XkeyOc)
      requires Hashed(entries) && Objected(entries) && OcPool(Records(entries))
      modifies `ocs, `nOc, `ownOc
      ensures Hashed(entries) && Objected(entries) && OcPool(Records(entries) + {oc})
      ensures oc in ownOc && oc !in Records(entries)
      ensures (forall x :: x in ownOc ==> x in old(ownOc) || fresh(x)) && (oc in old(ownOc) || fresh(oc))
    {
      oc := OcNew(Records(entries));
    }

    method PrepareOchead(o: ObjCore) returns (ochead: OcHead)
      requires Hashed(entries) && Objected(entries) && OchPool(octree.Values)
      modifies `octree, `ocheads, `nOchead, `ownOch, ownOch`ptr
      ensures Hashed(entries) && Objected(entries) && OchPool(octree.Values)
      ensures octree == old(octree)[o := ochead]
      ensures (forall x :: x in ownOch ==> x in old(ownOch) || fresh(x)) && (ochead in old(ownOch) || fresh(ochead))
    {
      ochead := OctreeInsert(o);
    }

    method PrepareHashhead(digest: int) returns (hashhead: HashHead)
      requires Hashed(entries) && Objected(entries) && HashPool(hashtree.Values)
      modifies `hashtree, `hashheads, `nHashhead, `ownHash, ownHash`digest
      ensures Hashed(entries) && Objected(entries) && HashPool(hashtree.Values)
      ensures hashtree == old(hashtree)[digest := hashhead]
      ensures (forall x :: x in ownHash ==> x in old(ownHash) || fresh(x))
          && (hashhead in old(ownHash) || fresh(hashhead))
    {
      hashhead := HashtreeInsert(digest);
    }

    method PrepareHeads(o: ObjCore, digest: int) returns (ochead: OcHead, hashhead: HashHead)
      requires Hashed(entries) && Objected(entries) && HashPool(hashtree.Values) && OchPool(octree.Values)
      modifies `octree, `ocheads, `nOchead, `ownOch, ownOch`ptr
      modifies `hashtree, `hashheads, `nHashhead, `ownHash, ownHash`digest
      ensures Hashed(entries) && Objected(entries) && HashPool(hashtree.Values) && OchPool(octree.Values)
      ensures hashtree == old(hashtree)[digest := hashhead] && octree == old(octree)[o := ochead]
      ensures (forall x :: x in ownHash ==> x in old(ownHash) || fresh(x))
          && (hashhead in old(ownHash) || fresh(hashhead))
      ensures (forall x :: x in ownOch ==> x in old(ownOch) || fresh(x)) && (ochead in old(ownOch) || fresh(ochead))
    {
      ochead := PrepareOchead(o);
      hashhead := PrepareHashhead(digest);
    }

    /** The first half of xkey_insert: two heads and a spare record. */
    method Prepare(o: ObjCore, digest: int) returns (ochead: OcHead, hashhead: HashHead, oc: XkeyOc)
      requires Hashed(entries) && Objected(entries) && Pooled(Records(entries))
      modifies `octree, `ocheads, `nOchead, `ownOch, ownOch`ptr
      modifies `hashtree, `hashheads, `nHashhead, `ownHash, ownHash`digest
      modifies `ocs, `nOc, `ownOc
      ensures Hashed(entries) && Objected(entries) && Pooled(Records(entries) + {oc})
      ensures hashtree == old(hashtree)[digest := hashhead] && octree == old(octree)[o := ochead]
      ensures oc in ownOc && oc !in Records(entries)
      ensures (forall x :: x in ownHash ==> x in old(ownHash) || fresh(x))
          && (hashhead in old(ownHash) || fresh(hashhead))
      ensures (forall x :: x in ownOch ==> x in old(ownOch) || fresh(x)) && (ochead in old(ownOch) || fresh(ochead))
      ensures (forall x :: x in ownOc ==> x in old(ownOc) || fresh(x)) && (oc in old(ownOc) || fresh(oc))
    {
      ochead, hashhead := PrepareHeads(o, digest);
      oc := OcFor();
    }

    /** The second half of xkey_insert. */
    method Attach(ochead: OcHead, hashhead: HashHead, oc: XkeyOc, o: ObjCore, digest: int)
      requires Distinct(entries) && Hashed(entries) && Objected(entries) && Pooled(Records(entries) + {oc})
      requires oc in ownOc && oc !in Records(entries)
      requires digest in hashtree && hashtree[digest] == hashhead && o in octree && octree[o] == ochead
      modifies `entries, ochead`ocs, hashhead`ocs, oc`hashhead, oc`objcore
      ensures Distinct(entries) && Hashed(entries) && Objected(entries) && Pooled(Records(entries))
      ensures entries == old(entries) + [Entry(oc, o, digest)]
    {
      HasValues(hashtree);
      HasValues(octree);
      Link(ochead, hashhead, oc, o, digest);
    }

    /** The index is whole again once the new record is on both lists. */
    method Complete(ochead: OcHead, hashhead: HashHead, oc: XkeyOc, o: ObjCore, digest: int)
      requires Distinct(entries) && Hashed(entries) && Objected(entries) && Pooled(Records(entries) + {oc})
      requires Tight(hashtree.Keys - {digest}, octree.Keys - {o}, entries)
      requires oc in ownOc && oc !in Records(entries)
      requires digest in hashtree && hashtree[digest] == hashhead && o in octree && octree[o] == ochead
      modifies `entries, ochead`ocs, hashhead`ocs, oc`hashhead, oc`objcore
      ensures Valid() && entries == old(entries) + [Entry(oc, o, digest)]
      ensures ownHash == old(ownHash) && ownOch == old(ownOch) && ownOc == old(ownOc)
    {
      TightAppend(hashtree.Keys - {digest}, octree.Keys - {o}, entries, Entry(oc, o, digest));
      KeyBack(hashtree, digest);
      KeyBack(octree, o);
      Attach(ochead, hashhead, oc, o, digest);
    }

    /** xkey_insert. */
    method Insert(o: ObjCore, digest: int) returns (ghost oc: XkeyOc)
      requires Valid()
      modifies this
      modifies ownHash`digest, ownHash`ocs, ownOch`ptr, ownOch`ocs, ownOc`hashhead, ownOc`objcore
      ensures Valid() && entries == old(entries) + [Entry(oc, o, digest)]
      ensures forall x :: x in ownHash ==> x in old(ownHash) || fresh(x)
      ensures forall x :: x in ownOch ==> x in old(ownOch) || fresh(x)
      ensures forall x :: x in ownOc ==> x in old(ownOc) || fresh(x)
    {
      var ochead, hashhead, record := Prepare(o, digest);
      oc := record;
      TightKeys(old(hashtree.Keys), old(octree.Keys), hashtree.Keys - {digest}, octree.Keys - {o}, entries);
      Complete(ochead, hashhead, record, o, digest);
    }

    /** Takes `oc` off the list of its digest. */
    method UnlinkHash(oc: XkeyOc, ghost es: seq<Entry>, ghost i: nat) returns (hashhead: HashHead)
      requires i < |es| && Distinct(es) && es[i].oc == oc && Hashed(es) && OcPool(Records(es))
      modifies oc`hashhead, ownHash`ocs
      ensures OcPool(Records(es))
      ensures Hashed(Drop(es, oc)) && oc.hashhead == null && hashhead == hashtree[es[i].digest]
      ensures forall h :: h in ownHash ==> h == hashhead || h.ocs == old(h.ocs)
    {
      DropByDigest(es, i, es[i].digest);
      DropOtherDigests(es, i);
      DropKeeps(es, i);
      assert oc in Records(es);
      hashhead := oc.hashhead;
      oc.hashhead := null;
      hashhead.ocs := Minus(hashhead.ocs, oc);
    }

    method DropHashhead(hashhead: HashHead, ghost es: seq<Entry>)
      requires Hashed(es) && HashPool(hashtree.Values) && hashhead.ocs == []
      requires hashhead.digest in hashtree && hashtree[hashhead.digest] == hashhead
      modifies `hashtree
      ensures Hashed(es) && hashtree == old(hashtree) - {hashhead.digest}
      ensures HashPool(hashtree.Values + {hashhead}) && hashhead !in hashtree.Values
    {
      AllTagged(es, hashhead.digest);
      assert forall d :: d in hashtree ==> hashtree[d].digest == d;
      HasValues(hashtree);
      ValuesWithout(hashtree, hashhead.digest);
      hashtree := hashtree - {hashhead.digest};
    }

    /** A head left with an empty list goes from the tree to the pool. */
    method RetireHashhead(hashhead: HashHead, ghost es: seq<Entry>)
      requires Hashed(es) && HashPool(hashtree.Values)
      requires hashhead.digest in hashtree && hashtree[hashhead.digest] == hashhead
      requires forall d :: d in hashtree && d != hashhead.digest ==> ByDigest(es, d) != []
      modifies `hashtree, `hashheads, `nHashhead, `ownHash, hashhead`digest
      ensures Hashed(es) && HashPool(hashtree.Values)
      ensures forall d :: d in hashtree ==> ByDigest(es, d) != []
      ensures ownHash <= old(ownHash)
    {
      if hashhead.ocs == [] {
        DropHashhead(hashhead, es);
        HasValues(hashtree);
        HashheadDelete(hashhead, hashtree.Values);
      }
    }

    /** The digest half of one round of xkey_remove. */
    method DropHash(oc: XkeyOc, ghost es: seq<Entry>, ghost i: nat)
      requires i < |es| && Distinct(es) && es[i].oc == oc && Hashed(es)
      requires HashPool(hashtree.Values) && OcPool(Records(es))
      requires forall d :: d in hashtree ==> ByDigest(es, d) != []
      modifies oc`hashhead, ownHash`ocs, ownHash`digest, `hashtree, `hashheads, `nHashhead, `ownHash
      ensures Hashed(Drop(es, oc)) && HashPool(hashtree.Values) && OcPool(Records(es)) && oc.hashhead == null
      ensures forall d :: d in hashtree ==> ByDigest(Drop(es, oc), d) != []
      ensures ownHash <= old(ownHash)
    {
      HasValues(hashtree);
      var hashhead := UnlinkHash(oc, es, i);
      DropOtherDigests(es, i);
      RetireHashhead(hashhead, Drop(es, oc));
    }

    /** Takes `oc` off the list of its object. */
    method UnlinkObject(ochead: OcHead, oc: XkeyOc, ghost es: seq<Entry>, ghost i: nat)
      requires i < |es| && Distinct(es) && es[i].oc == oc && Objected(es) && ochead == octree[es[i].obj]
      modifies oc`objcore, ochead`ocs
      ensures Objected(Drop(es, oc)) && oc.objcore == null
      ensures ochead.ocs == Minus(old(ochead.ocs), oc)
    {
      DropByObject(es, i, es[i].obj);
      DropOtherObjects(es, i, octree.Keys);
      DropKeeps(es, i);
      oc.objcore := null;
      ochead.ocs := Minus(ochead.ocs, oc);
    }

    /** The record, off both lists, goes to the pool. */
    method RetireOc(oc: XkeyOc, ghost es: seq<Entry>)
      requires Hashed(es) && Objected(es) && oc !in Records(es)
      requires OcPool(Records(es) + {oc}) && oc.objcore == null && oc.hashhead == null
      modifies `ocs, `nOc, `ownOc
      ensures Hashed(es) && Objected(es) && OcPool(Records(es))
      ensures ownOc <= old(ownOc)
    {
      assert forall i :: 0 <= i < |es| ==> es[i].oc in Records(es);
      OcDelete(oc, Records(es));
    }

    /** The object half of one round of xkey_remove. */
    method DropObject(ochead: OcHead, oc: XkeyOc, ghost es: seq<Entry>, ghost i: nat)
      requires i < |es| && Distinct(es) && es[i].oc == oc && Objected(es) && ochead == octree[es[i].obj]
      requires Hashed(Drop(es, oc)) && OchPool(octree.Values) && OcPool(Records(es)) && oc.hashhead == null
      requires HashPool(hashtree.Values)
      modifies oc`objcore, ochead`ocs, `ocs, `nOc, `ownOc
      ensures Hashed(Drop(es, oc)) && Objected(Drop(es, oc))
      ensures HashPool(hashtree.Values) && OchPool(octree.Values) && OcPool(Records(Drop(es, oc)))
      ensures ochead.ocs == Minus(old(ochead.ocs), oc) && ownOc <= old(ownOc)
    {
      HasValues(octree);
      RecordsDrop(es, i);
      assert Records(es) == Records(Drop(es, oc)) + {oc};
      UnlinkObject(ochead, oc, es, i);
      RetireOc(oc, Drop(es, oc));
    }

    /** The digest half leaves the object side alone. */
    method DetachHash(oc: XkeyOc, ghost es: seq<Entry>, ghost i: nat)
      requires i < |es| && Distinct(es) && es[i].oc == oc && Hashed(es) && Objected(es)
      requires HashPool(hashtree.Values) && OchPool(octree.Values) && OcPool(Records(es))
      requires forall d :: d in hashtree ==> ByDigest(es, d) != []
      modifies oc`hashhead, ownHash`ocs, ownHash`digest, `hashtree, `hashheads, `nHashhead, `ownHash
      ensures Hashed(Drop(es, oc)) && Objected(es) && oc.hashhead == null
      ensures HashPool(hashtree.Values) && OchPool(octree.Values) && OcPool(Records(es))
      ensures forall d :: d in hashtree ==> ByDigest(Drop(es, oc), d) != []
      ensures ownHash <= old(ownHash)
    {
      DropHash(oc, es, i);
    }

    /** One round of the loop of xkey_remove. */
    method RemoveRecord(ochead: OcHead, oc: XkeyOc, ghost es: seq<Entry>, ghost i: nat)
      requires i < |es| && es[i].oc == oc && Distinct(es) && Hashed(es) && Objected(es)
      requires HashPool(hashtree.Values) && OchPool(octree.Values) && OcPool(Records(es))
      requires ochead == octree[es[i].obj] && forall d :: d in hashtree ==> ByDigest(es, d) != []
      modifies oc`hashhead, oc`objcore, ownHash`digest, ownHash`ocs, ochead`ocs, `hashtree, `hashheads, `nHashhead
      modifies `ownHash, `ocs, `nOc, `ownOc
      ensures Hashed(Drop(es, oc)) && Objected(Drop(es, oc))
      ensures HashPool(hashtree.Values) && OchPool(octree.Values) && OcPool(Records(Drop(es, oc)))
      ensures forall d :: d in hashtree ==> ByDigest(Drop(es, oc), d) != []
      ensures ochead.ocs == Minus(old(ochead.ocs), oc) && ownHash <= old(ownHash) && ownOc <= old(ownOc)
    {
      DetachHash(oc, es, i);
      DropObject(ochead, oc, es, i);
    }

    /** The emptied head leaves the tree. */
    method DropOchead(ochead: OcHead, o: ObjCore, ghost es: seq<Entry>)
      requires Objected(es) && OchPool(octree.Values)
      requires o in octree && octree[o] == ochead && ochead.ocs == []
      modifies `octree
      ensures Objected(es) && octree == old(octree) - {o}
      ensures OchPool(octree.Values + {ochead}) && ochead !in octree.Values
    {
      AllOwned(es, o);
      assert forall p :: p in octree ==> octree[p].ptr == p;
      HasValues(octree);
      ValuesWithout(octree, o);
      octree := octree - {o};
    }

    /** The end of xkey_remove: the emptied head goes from the tree to the pool. */
    method RetireOchead(ochead: OcHead, o: ObjCore, ghost es: seq<Entry>)
      requires Objected(es) && OchPool(octree.Values)
      requires o in octree && octree[o] == ochead && ochead.ocs == []
      modifies `octree, `ocheads, `nOchead, `ownOch, ochead`ptr
      ensures Objected(es) && OchPool(octree.Values)
      ensures octree == old(octree) - {o} && ownOch <= old(ownOch)
    {
      DropOchead(ochead, o, es);
      HasValues(octree);
      OcheadDelete(ochead, octree.Values);
    }

    /** The index while the list of `o` is being emptied. */
    ghost predicate Emptying(o: ObjCore, es: seq<Entry>)
      reads `hashtree, `hashheads, `nHashhead, `ownHash, ownHash`digest, ownHash`ocs
      reads `octree, `ocheads, `nOchead, `ownOch, ownOch`ptr, ownOch`ocs
      reads `ocs, `nOc, `ownOc, ownOc`hashhead, ownOc`objcore
    {
      && Distinct(es) && Hashed(es) && Objected(es)
      && HashPool(hashtree.Values) && OchPool(octree.Values) && OcPool(Records(es))
      && o in octree && Tight({}, octree.Keys - {o}, es) && forall d :: d in hashtree ==> ByDigest(es, d) != []
    }

    method RemoveFirst(ochead: OcHead, oc: XkeyOc, ghost o: ObjCore, ghost es: seq<Entry>)
      returns (ghost rest: seq<Entry>)
      requires Emptying(o, es) && octree[o] == ochead && ochead.ocs != [] && oc == ochead.ocs[0]
      modifies ownOc`hashhead, ownOc`objcore, ownHash`digest, ownHash`ocs, ochead`ocs, `hashtree, `hashheads
      modifies `nHashhead, `ownHash, `ocs, `nOc, `ownOc
      ensures Emptying(o, rest) && Others(rest, o) == Others(es, o) && |rest| < |es|
      ensures ochead.ocs == old(ochead.ocs)[1..] && ownHash <= old(ownHash) && ownOc <= old(ownOc)
    {
      ghost var i := ListedObject(es, oc, o);
      DropOthers(es, i);
      TightDrop(octree.Keys - {o}, es, i);
      RemoveRecord(ochead, oc, es, i);
      rest := Drop(es, oc);
    }

    /** The loop of xkey_remove: the successor is saved before its record goes. */
    method RemoveAll(ochead: OcHead, ghost o: ObjCore) returns (ghost es: seq<Entry>)
      requires Valid() && o in octree && octree[o] == ochead
      modifies ownOc`hashhead, ownOc`objcore, ownHash`digest, ownHash`ocs, ochead`ocs, `hashtree, `hashheads
      modifies `nHashhead, `ownHash, `ocs, `nOc, `ownOc
      ensures Emptying(o, es) && ochead.ocs == [] && es == Others(entries, o)
      ensures ownHash <= old(ownHash) && ownOc <= old(ownOc)
    {
      es := entries;
      var oc := First(ochead.ocs);
      while oc != null
        invariant Emptying(o, es) && octree[o] == ochead && oc == First(ochead.ocs)
        invariant Others(es, o) == Others(entries, o)
        invariant ownHash <= old(ownHash) && ownOc <= old(ownOc)
        decreases |es|
      {
        var oc2 := First(ochead.ocs[1..]);
        es := RemoveFirst(ochead, oc, o, es);
        oc := oc2;
      }
      NoneLeft(es, o);
    }

    ghost method Settle(es: seq<Entry>)
      requires Distinct(es) && Hashed(es) && Objected(es)
      requires HashPool(hashtree.Values) && OchPool(octree.Values) && OcPool(Records(es))
      requires Tight(hashtree.Keys, octree.Keys, es)
      modifies `entries
      ensures Valid() && entries == es
    {
      entries := es;
    }

    method RemoveOchead(ochead: OcHead, o: ObjCore, ghost es: seq<Entry>)
      requires Emptying(o, es) && octree[o] == ochead && ochead.ocs == []
      modifies `octree, `ocheads, `nOchead, `ownOch, ochead`ptr, `entries
      ensures Valid() && entries == es && ownOch <= old(ownOch)
    {
      RetireOchead(ochead, o, es);
      Settle(es);
    }

    /** xkey_remove. */
    method Remove(ochead: OcHead, o: ObjCore)
      requires Valid() && o in octree && octree[o] == ochead
      modifies this
      modifies ownHash`digest, ownHash`ocs, ownOch`ptr, ownOch`ocs, ownOc`hashhead, ownOc`objcore
      ensures Valid() && entries == Others(old(entries), o)
    {
      ghost var es := RemoveAll(ochead, o);
      RemoveOchead(ochead, o, es);
    }
  }
}
