/** The subscriptions of a session as files in hash buckets (lib/myqtt-storage.c). */
module SubStore {
  import opened Bytes
  import opened FileNames

  const CHUNK: nat := 4096

  /** The name of a subscription's file: the filter's length and QoS, then bucket and time. */
  function NameOf(f: CString, qos: nat, stamp: string): string {
    Dec(|f|) + "-" + (Dec(qos) + "-" + stamp)
  }

  /** A name from which the length of a filter and its QoS are read back. */
  predicate Names(name: string, f: CString, qos: int) {
    var size := Leading(name);
    && size.Some? && size.value.0 == |f|
    && var q := Leading(Behind(name, size.value.1)); q.Some? && q.value.0 == qos
  }

  lemma NameOfNames(f: CString, qos: nat, stamp: string)
    requires |f| < NAME_LIMIT && qos < NAME_LIMIT
    ensures Names(NameOf(f, qos, stamp), f, qos)
  {
    ReadBack(|f|, Dec(qos) + "-" + stamp);
    BehindNumber(|f|, Dec(qos) + "-" + stamp);
    ReadBack(qos, stamp);
  }

  lemma NameReads(name: string, f: CString, qos: int)
    requires Names(name, f, qos)
    ensures Leading(name).Some? && Leading(name).value.0 == |f|
    ensures var behind := Leading(Behind(name, Leading(name).value.1)); behind.Some? && behind.value.0 == qos
  {
  }

  /** Compares a file with a filter of the same length, 4096 bytes at a time. */
  method SameContent(content: seq<byte>, f: CString) returns (matches: bool)
    requires |content| == |f|
    ensures matches <==> content == f
  {
    var desp := 0;
    while desp < |f|
      invariant desp <= |f| && content[..desp] == f[..desp]
      decreases |f| - desp
    {
      var bytesRead := if |content| - desp < CHUNK then |content| - desp else CHUNK;
      if content[desp..desp + bytesRead] != f[desp..desp + bytesRead] {
        return false;
      }
      assert content[..desp + bytesRead] == content[..desp] + content[desp..desp + bytesRead];
      desp := desp + bytesRead;
    }
    assert content[..desp] == content && f[..desp] == f;
    return true;
  }

  type Dir = map<string, CString>

  function With(dir: Dir, name: string, content: CString): Dir {
    dir[name := content]
  }

  /** The files of one bucket against what they stand for. */
  ghost predicate Stands(dir: Dir, view: map<CString, int>) {
    && (forall n :: n in dir ==> dir[n] in view && Names(n, dir[n], view[dir[n]]))
    && (forall n, m :: n in dir && m in dir && dir[n] == dir[m] ==> n == m)
    && (forall f :: f in view ==> exists n :: n in dir && dir[n] == f)
  }

  /** Looks a filter up in a bucket, first by length, then by content; may remove the file. */
  method SubExists(dir: Dir, f: CString, removeIfFound: bool, ghost view: map<CString, int>) returns (found: bool, left: Dir)
    requires Stands(dir, view)
    ensures found <==> f in view
    ensures if removeIfFound then Stands(left, view - {f}) else left == dir
  {
    hide Leading, Behind, Names, Stands;
    var names := dir.Keys;
    while names != {}
      invariant names <= dir.Keys
      invariant forall n :: n in dir && n !in names ==> dir[n] != f
      decreases |names|
    {
      var n :| n in names;
      names := names - {n};
      FileReads(dir, view, n);
      var size, position := GetSizeFromFileName(n);
      if size == |f| {
        var matches := SameContent(dir[n], f);
        if matches {
          FileRemoved(dir, view, n);
          return true, if removeIfFound then dir - {n} else dir;
        }
      }
    }
    FileMissing(dir, view, f);
    return false, dir;
  }

  lemma FileReads(dir: Dir, view: map<CString, int>, n: string)
    requires Stands(dir, view) && n in dir
    ensures dir[n] in view && Names(n, dir[n], view[dir[n]])
    ensures Leading(n).Some? && Leading(n).value.0 == |dir[n]|
  {
    hide Leading, Behind, Names;
    NameReads(n, dir[n], view[dir[n]]);
  }

  lemma FileMissing(dir: Dir, view: map<CString, int>, f: CString)
    requires Stands(dir, view) && forall n :: n in dir ==> dir[n] != f
    ensures f !in view && view - {f} == view
  {
    hide Names;
  }

  lemma FileRemoved(dir: Dir, view: map<CString, int>, n: string)
    requires Stands(dir, view) && n in dir
    ensures Stands(dir - {n}, view - {dir[n]})
  {
    hide Names;
    var (dir', view') := (dir - {n}, view - {dir[n]});
    forall f | f in view' ensures exists m :: m in dir' && dir'[m] == f {
      var m :| m in dir && dir[m] == f;
      assert m in dir' && dir'[m] == f;
    }
  }

  lemma FileAdded(dir: Dir, view: map<CString, int>, n: string, f: CString, qos: int)
    requires Stands(dir, view) && n !in dir && f !in view && Names(n, f, qos)
    ensures Stands(With(dir, n, f), view[f := qos])
  {
    hide Names;
    var (dir', view') := (With(dir, n, f), view[f := qos]);
    forall m | m in dir' ensures dir'[m] in view' && Names(m, dir'[m], view'[dir'[m]]) {
      assert m != n ==> m in dir && dir[m] in view;
    }
    forall l, m | l in dir' && m in dir' && dir'[l] == dir'[m] ensures l == m {
      assert l != n ==> l in dir && dir[l] in view;
      assert m != n ==> m in dir && dir[m] in view;
    }
    forall g | g in view' ensures exists m :: m in dir' && dir'[m] == g {
      if g == f {
        assert dir'[n] == f;
      } else {
        var m :| m in dir && dir[m] == g;
        assert m in dir' && dir'[m] == g;
      }
    }
  }

  /** The part of a map that belongs to one bucket. */
  function Slot(view: map<CString, int>, hash: CString -> nat, b: nat): map<CString, int> {
    map f | f in view && hash(f) == b :: view[f]
  }

  /** Reads a subscription back from a file. */
  method ReadFile(name: string, content: CString, ghost qos: int) returns (f: CString, granted: int)
    requires Names(name, content, qos)
    ensures f == content && granted == qos
  {
    hide Leading, Behind;
    NameReads(name, content, qos);
    var size, position := GetSizeFromFileName(name);
    var more;
    granted, more := GetSizeFromFileName(Behind(name, position));
    f := content[..size];
  }

  /** Registers every file of a bucket, reading filter and QoS back. */
  method RegisterDir(dir: Dir, ghost view: map<CString, int>, before: map<CString, int>)
    returns (registered: map<CString, int>, count: nat)
    requires Stands(dir, view) && before.Keys !! view.Keys
    ensures registered == before + view && count == |view|
  {
    hide Names, Stands, Progress;
    registered, count := before, 0;
    var names := dir.Keys;
    ghost var done: map<CString, int> := map[];
    ProgressStarts(dir, view);
    while names != {}
      invariant Progress(dir, view, names, done)
      invariant registered == before + done && count == |done|
      decreases |names|
    {
      var n :| n in names;
      ProgressStep(dir, view, names, done, n);
      var f, qos := ReadFile(n, dir[n], view[dir[n]]);
      PutLast(before, done, f, qos);
      names := names - {n};
      done := done[f := qos];
      registered := registered[f := qos];
      count := count + 1;
    }
    ProgressEnds(dir, view, done);
  }

  /** `names` are the files still to be read, `done` what the others stand for. */
  ghost predicate Progress(dir: Dir, view: map<CString, int>, names: set<string>, done: map<CString, int>) {
    && names <= dir.Keys && done.Keys <= view.Keys && (forall f :: f in done ==> done[f] == view[f])
    && forall n :: n in dir ==> (n in names <==> dir[n] !in done)
  }

  lemma ProgressStarts(dir: Dir, view: map<CString, int>)
    ensures Progress(dir, view, dir.Keys, map[])
  {
  }

  lemma ProgressStep(dir: Dir, view: map<CString, int>, names: set<string>, done: map<CString, int>, n: string)
    requires Stands(dir, view) && Progress(dir, view, names, done) && n in names
    ensures n in dir && dir[n] in view && Names(n, dir[n], view[dir[n]]) && dir[n] !in done
    ensures Progress(dir, view, names - {n}, done[dir[n] := view[dir[n]]])
  {
    hide Names;
  }

  lemma ProgressEnds(dir: Dir, view: map<CString, int>, done: map<CString, int>)
    requires Stands(dir, view) && Progress(dir, view, {}, done)
    ensures done == view
  {
    hide Names;
    forall f | f in view ensures f in done {
      var n :| n in dir && dir[n] == f;
    }
  }

  lemma PutLast(before: map<CString, int>, done: map<CString, int>, f: CString, qos: int)
    ensures (before + done)[f := qos] == before + done[f := qos]
    ensures f !in done ==> |done[f := qos]| == |done| + 1
  {
  }

  class Store {
    const hash: CString -> nat
    var dirs: map<nat, Dir>
    /** The map from filter to QoS that the files stand for. */
    ghost var view: map<CString, int>

    ghost predicate Valid()
      reads this
    {
      && (forall b :: b in dirs ==> Stands(dirs[b], Slot(view, hash, b)))
      && (forall f :: f in view ==> f != [] && hash(f) in dirs)
    }

    /** `hash` stands for the hash of a string modulo the number of buckets. */
    constructor (hash: CString -> nat)
      ensures Valid() && view == map[] && this.hash == hash
    {
      this.hash := hash;
      dirs, view := map[], map[];
    }

    /** Stores a subscription unless the filter is stored already, whatever its QoS; the time stamp makes a new name. */
    method Sub(f: CString, qos: nat, stamp: string) returns (ok: bool)
      requires Valid() && |f| < NAME_LIMIT && qos < NAME_LIMIT
      requires hash(f) in dirs ==> NameOf(f, qos, stamp) !in dirs[hash(f)]
      modifies this
      ensures Valid() && (ok <==> f != [])
      ensures view == if f == [] || f in old(view) then old(view) else old(view)[f := qos]
    {
      hide Stands, Slot, NameOf;
      if f == [] {
        return false;
      }
      var b := hash(f);
      if b !in dirs {
        EmptySlot(view, hash, b);
        dirs := dirs[b := map[]];
      } else {
        var found, left := SubExists(dirs[b], f, false, Slot(view, hash, b));
        if found {
          InSlot(view, hash, f);
          return true;
        }
      }
      InSlot(view, hash, f);
      WriteFile(f, qos, stamp);
      return true;
    }

    /** Writes a new file into the bucket's directory. */
    method WriteFile(f: CString, qos: nat, stamp: string)
      requires Valid() && f != [] && f !in view && |f| < NAME_LIMIT && qos < NAME_LIMIT
      requires hash(f) in dirs && NameOf(f, qos, stamp) !in dirs[hash(f)]
      modifies this
      ensures Valid() && view == old(view)[f := qos]
    {
      hide Stands, Slot, NameOf, With;
      var b := hash(f);
      InSlot(view, hash, f);
      NameOfNames(f, qos, stamp);
      FileAdded(dirs[b], Slot(view, hash, b), NameOf(f, qos, stamp), f, qos);
      dirs := dirs[b := With(dirs[b], NameOf(f, qos, stamp), f)];
      view := view[f := qos];
      SlotsAfterSub(old(view), hash, f, qos);
    }

    /** Removes a subscription. */
    method Unsub(f: CString) returns (ok: bool)
      requires Valid()
      modifies this
      ensures Valid() && (ok <==> f in old(view))
      ensures view == old(view) - {f}
    {
      if f == [] || hash(f) !in dirs {
        assert view - {f} == view;
        return false;
      }
      var b := hash(f);
      var found, left := SubExists(dirs[b], f, true, Slot(view, hash, b));
      dirs := dirs[b := left];
      view := view - {f};
      SlotsAfterUnsub(old(view), hash, f);
      return found;
    }

    /** Goes over every file of every bucket: the subscriptions a connection gets back, and how many there are. */
    method Recover() returns (registered: map<CString, int>, total: nat)
      requires Valid()
      ensures registered == view && total == |view|
    {
      hide Stands, Slot, Outside;
      registered, total := map[], 0;
      var left := dirs.Keys;
      OutsideEnds(view, hash, left);
      while left != {}
        invariant left <= dirs.Keys
        invariant registered == Outside(view, hash, left) && total == |registered|
        decreases |left|
      {
        var b :| b in left;
        OutsideStep(view, hash, left, b);
        left := left - {b};
        var more, count := RegisterDir(dirs[b], Slot(view, hash, b), registered);
        JoinedSize(registered, Slot(view, hash, b));
        registered, total := more, total + count;
      }
      OutsideEnds(view, hash, {});
    }
  }

  /** The part of a map that belongs to no bucket of `left`. */
  function Outside(view: map<CString, int>, hash: CString -> nat, left: set<nat>): map<CString, int> {
    map f | f in view && hash(f) !in left :: view[f]
  }

  lemma OutsideStep(view: map<CString, int>, hash: CString -> nat, left: set<nat>, b: nat)
    requires b in left
    ensures Outside(view, hash, left).Keys !! Slot(view, hash, b).Keys
    ensures Outside(view, hash, left - {b}) == Outside(view, hash, left) + Slot(view, hash, b)
  {
  }

  lemma OutsideEnds(view: map<CString, int>, hash: CString -> nat, left: set<nat>)
    ensures (forall f :: f in view ==> hash(f) in left) ==> Outside(view, hash, left) == map[]
    ensures left == {} ==> Outside(view, hash, left) == view
  {
  }

  lemma EmptySlot(view: map<CString, int>, hash: CString -> nat, b: nat)
    requires forall f :: f in view ==> hash(f) != b
    ensures Slot(view, hash, b) == map[] && Stands(map[], Slot(view, hash, b))
  {
  }

  lemma InSlot(view: map<CString, int>, hash: CString -> nat, f: CString)
    ensures f in Slot(view, hash, hash(f)) <==> f in view
  {
  }

  lemma SlotsAfterSub(view: map<CString, int>, hash: CString -> nat, f: CString, qos: int)
    ensures forall b :: Slot(view[f := qos], hash, b) == if b == hash(f) then Slot(view, hash, b)[f := qos] else Slot(view, hash, b)
  {
  }

  lemma SlotsAfterUnsub(view: map<CString, int>, hash: CString -> nat, f: CString)
    ensures forall b :: Slot(view - {f}, hash, b) == if b == hash(f) then Slot(view, hash, b) - {f} else Slot(view, hash, b)
  {
  }

  lemma {:induction false} JoinedSize(a: map<CString, int>, b: map<CString, int>)
    requires a.Keys !! b.Keys
    ensures |a + b| == |a| + |b|
  {
    assert (a + b).Keys == a.Keys + b.Keys;
    assert |a + b| == |(a + b).Keys| && |a| == |a.Keys| && |b| == |b.Keys|;
  }
}
