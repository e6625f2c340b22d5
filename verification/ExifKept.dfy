// What the offset pass leaves alone: every tag but the pointers it stores, and the order of tags.
module ExifKept {
  import opened ExifLayout
  import opened ExifModel
  import opened ExifPass
  import opened StableSort

  // The places the pass writes to.
  predicate IsStored(nr: nat, id: nat) {
    || (nr == IFD0 && (id == TAG_GPS_IFD || id == TAG_EXIF_IFD)) || (nr == EXIF_IFD && id == TAG_INTER_IFD)
    || (nr == IFD1 && id == TAG_JPEG_OFFS)
  }

  // The places that writing an image touches at all.
  predicate IsRewritten(nr: nat, id: nat) {
    IsStored(nr, id) || (nr == GPS_IFD && id == TAG_GPS_VERSION)
  }

  // The tags of directory nr, in place; only those the pass stores may have another value.
  ghost predicate KeptTags(nr: nat, a: seq<Tag>, b: seq<Tag>) {
    |a| == |b| && forall i | 0 <= i < |a| :: a[i].id == b[i].id && (!IsStored(nr, a[i].id) ==> a[i] == b[i])
  }

  ghost predicate Kept(a: seq<Ifd>, b: seq<Ifd>) {
    |a| == |b| && forall k | 0 <= k < |a| :: a[k].nr == b[k].nr && KeptTags(a[k].nr, a[k].tags, b[k].tags)
  }

  lemma KeptOn(a: seq<Ifd>, b: seq<Ifd>, c: seq<Ifd>)
    requires Kept(a, b) && Kept(b, c)
    ensures Kept(a, c)
  {
    forall k | 0 <= k < |a| ensures KeptTags(a[k].nr, a[k].tags, c[k].tags) {
      assert KeptTags(a[k].nr, a[k].tags, b[k].tags) && KeptTags(b[k].nr, b[k].tags, c[k].tags);
    }
  }

  lemma PutKept(ds: seq<Ifd>, nr: nat, id: nat, v: int)
    requires HasTag(ds, nr, id) && IsStored(nr, id)
    ensures Kept(ds, WithLong(ds, nr, id, v))
  {
    var r, m := WithLong(ds, nr, id, v), IfdIndex(ds, nr);
    forall k | 0 <= k < |ds| ensures KeptTags(ds[k].nr, ds[k].tags, r[k].tags) {
      if k == m {
        assert r[k].tags == ds[k].tags[TagIndex(ds[k].tags, id) := LongIn(ds[k].tags[TagIndex(ds[k].tags, id)], v)];
      }
    }
  }

  lemma HomeIsStored(nr: nat)
    requires Home(nr).Some?
    ensures IsStored(Home(nr).value.nr, Home(nr).value.id)
  {
  }

  lemma StepKept(ds: seq<Ifd>, k: nat, len: nat)
    requires k < |ds| && Anchored(ds)
    ensures Kept(ds, Stored(ds, k, len))
  {
    if Home(ds[k].nr).Some? {
      HomeIsStored(ds[k].nr);
      PutKept(ds, Home(ds[k].nr).value.nr, Home(ds[k].nr).value.id, len);
    }
  }

  lemma {:induction false} PassKept(ds: seq<Ifd>, k: nat, len: nat)
    requires k <= |ds| && Anchored(ds) && len < 65536
    ensures Kept(ds, Pass(ds, k, |ds|, len).ds)
    decreases |ds| - k
  {
    if k < |ds| {
      var ds', len' := OneStep(ds, k, |ds|, len);
      StepKept(ds, k, len);
      PassKept(ds', k + 1, len');
      KeptOn(ds, ds', Pass(ds, k, |ds|, len).ds);
    }
  }

  lemma ThumbnailKept(p: Passed)
    ensures Kept(p.ds, WithThumbnail(p))
  {
    if HasTag(p.ds, IFD1, TAG_JPEG_OFFS) {
      PutKept(p.ds, IFD1, TAG_JPEG_OFFS, (p.len + 4) % 65536);
    }
  }

  lemma SortIsOrdered(ds: seq<Ifd>, k: nat)
    requires k < |ds|
    ensures SortedBy(SortedTags(ds)[k].tags, ById) && multiset(SortedTags(ds)[k].tags) == multiset(ds[k].tags)
  {
    OrdersAreOrders();
    SortSorts(ds[k].tags, ById);
  }

  /** Directory k of the laid-out image is directory k at the start of the pass with its tags sorted by id:
      as many tags, and each that is not a pointer the pass stores is there unchanged. */
  lemma LaidOutKeeps(ds: seq<Ifd>, k: nat)
    requires Ready(Started(ds)) && k < |Started(ds)|
    ensures |LaidOut(ds)| == |Started(ds)|
    ensures var d, r := Started(ds)[k], LaidOut(ds)[k];
      && r.nr == d.nr && |r.tags| == |d.tags| && SortedBy(r.tags, ById)
      && forall t | t in d.tags && !IsStored(d.nr, t.id) :: t in r.tags
  {
    var s := Started(ds);
    var p := Pass(s, 0, |s|, 8);
    var u := WithThumbnail(p);
    PassKept(s, 0, 8);
    ThumbnailKept(p);
    KeptOn(s, p.ds, u);
    SortIsOrdered(u, k);
    KeptSorted(s[k], u[k], LaidOut(ds)[k]);
  }

  lemma KeptSorted(d: Ifd, u: Ifd, r: Ifd)
    requires u.nr == d.nr && KeptTags(d.nr, d.tags, u.tags) && multiset(r.tags) == multiset(u.tags)
    ensures |r.tags| == |d.tags| && forall t | t in d.tags && !IsStored(d.nr, t.id) :: t in r.tags
  {
    assert |multiset(r.tags)| == |multiset(u.tags)|;
    forall t | t in d.tags && !IsStored(d.nr, t.id) ensures t in r.tags {
      var i :| 0 <= i < |d.tags| && d.tags[i] == t;
      assert u.tags[i] == t;
      assert t in multiset(u.tags);
      assert t in multiset(r.tags);
    }
  }

  // ---------------------------------------------------------------- before the pass

  // A tag stands in a directory of that number.
  ghost predicate Stands(ds: seq<Ifd>, nr: nat, t: Tag) {
    exists k :: 0 <= k < |ds| && ds[k].nr == nr && t in ds[k].tags
  }

  lemma PutLeaves(ds: seq<Ifd>, nr: nat, id: nat, v: int, n: nat, t: Tag)
    requires Stands(ds, n, t) && (n, t.id) != (nr, id)
    ensures Stands(WithLong(ds, nr, id, v), n, t)
  {
    var r := WithLong(ds, nr, id, v);
    var k :| 0 <= k < |ds| && ds[k].nr == n && t in ds[k].tags;
    assert r[k].nr == n;
    if k == IfdIndex(ds, nr) {
      var i :| 0 <= i < |ds[k].tags| && ds[k].tags[i] == t;
      assert r[k].tags[i] == t;
    }
  }

  /** No tag is lost or changed before the pass, the two that are put in first aside. */
  lemma StartedLeaves(ds: seq<Ifd>, n: nat, t: Tag)
    requires Stands(ds, n, t) && !IsRewritten(n, t.id)
    ensures Stands(Started(ds), n, t)
  {
    var d1 := WithLong(ds, IFD0, TAG_GPS_IFD, 0);
    var d2 := WithLong(d1, GPS_IFD, TAG_GPS_VERSION, 2);
    PutLeaves(ds, IFD0, TAG_GPS_IFD, 0, n, t);
    PutLeaves(d1, GPS_IFD, TAG_GPS_VERSION, 2, n, t);
    var k :| 0 <= k < |d2| && d2[k].nr == n && t in d2[k].tags;
    assert d2[k] in multiset(d2);
    assert d2[k] in multiset(Started(ds));
  }

  /** Writing an image keeps every tag of it but the pointers and the GPS version: it is in the laid-out
      directory of the same number, with its value. */
  lemma TagsSurvive(ds: seq<Ifd>, n: nat, t: Tag)
    requires Ready(Started(ds)) && Stands(ds, n, t) && !IsRewritten(n, t.id)
    ensures Stands(LaidOut(ds), n, t)
  {
    StartedLeaves(ds, n, t);
    var s := Started(ds);
    var k :| 0 <= k < |s| && s[k].nr == n && t in s[k].tags;
    LaidOutKeeps(ds, k);
    assert LaidOut(ds)[k].nr == n;
  }

  lemma StartedInOrder(ds: seq<Ifd>)
    ensures SortedBy(Started(ds), ByNr)
  {
    OrdersAreOrders();
    SortSorts(WithLong(WithLong(ds, IFD0, TAG_GPS_IFD, 0), GPS_IFD, TAG_GPS_VERSION, 2), ByNr);
  }

  lemma SameNumbersSameOrder(a: seq<Ifd>, b: seq<Ifd>)
    requires |a| == |b| && (forall k | 0 <= k < |a| :: a[k].nr == b[k].nr) && SortedBy(a, ByNr)
    ensures SortedBy(b, ByNr)
  {
    forall i, j | 0 <= i < j < |b| ensures ByNr(b[i], b[j]) {
      assert ByNr(a[i], a[j]);
    }
  }

  /** The directories of a laid-out image stand in the order of their numbers. */
  lemma DirsInOrder(ds: seq<Ifd>)
    requires Ready(Started(ds))
    ensures SortedBy(LaidOut(ds), ByNr)
  {
    var s, r := Started(ds), LaidOut(ds);
    StartedInOrder(ds);
    LayoutPoints(ds);
    forall k | 0 <= k < |s| ensures s[k].nr == r[k].nr {
      LaidOutKeeps(ds, k);
    }
    SameNumbersSameOrder(s, r);
  }
}
