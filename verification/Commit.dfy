/** Committing an overlay image into its backing image (qemu/block.c:742-843). */
module Commit {
  import opened Octets
  import opened Wrappers
  import opened Constants
  import opened ByteIo

  const COMMIT_BUF_SECTORS := 2048

  type Data = seq<Byte>

  /** The sectors an overlay has of its own, and the image under it. */
  datatype Images = Images(top: int -> Option<Data>, base: int -> Data)

  /** What a guest sees in a sector. */
  function View(d: Images, s: int): Data {
    if d.top(s).Some? then d.top(s).value else d.base(s)
  }

  datatype Backing = Backing(media: Media, keepReadOnly: bool)

  /** A BlockDriverState with its backing_hd, and the two files. */
  datatype Overlay = Overlay(media: Media, backing: Option<Backing>, files: Images)

  /** How reading and writing back the sectors from some position go; a failed write leaves anything behind. */
  datatype Fault = Good | BadRead | BadWrite(left: int -> Data)

  /** bdrv_make_empty: missing, or returning a code after which some sectors are still the overlay's own. */
  datatype Empty = Unable | Emptied(code: int, kept: int -> bool)

  /** All that drivers and files decide during one commit. */
  datatype Env = Env(run: int -> nat, fault: int -> Fault, empty: Empty, openRw: int, openRo: int)

  predicate Uniform(top: int -> Option<Data>, s: int, n: nat) {
    forall k | s <= k < s + n :: top(k).Some? == top(s).Some?
  }

  /** What drivers promise: is_allocated reports a run of sectors that are alike, and a make_empty that
      returns 0 keeps nothing. */
  ghost predicate Honest(top: int -> Option<Data>, env: Env) {
    && (forall s: int :: 1 <= env.run(s) <= COMMIT_BUF_SECTORS && Uniform(top, s, env.run(s)))
    && (env.empty.Emptied? && env.empty.code == 0 ==> forall s :: !env.empty.kept(s))
  }

  /** A run of the overlay's own sectors written to the image under it. */
  function Overwritten(d: Images, s: int, n: nat): int -> Data {
    k => if s <= k < s + n then View(d, k) else d.base(k)
  }

  function Spoilt(d: Images, s: int, n: nat, left: int -> Data): int -> Data {
    k => if s <= k < s + n then left(k) else d.base(k)
  }

  /** One allocated run: whether it was copied, and the image under the overlay afterwards. */
  function CopyRun(over: Media, under: Media, env: Env, d: Images, s: int): (bool, int -> Data) {
    var n, fault := env.run(s), env.fault(s);
    if !Accepts(over, SECTOR * s, SECTOR * n) || fault.BadRead? then (false, d.base)
    else if !Writable(under, SECTOR * s, SECTOR * n) then (false, d.base)
    else if fault.BadWrite? then (false, Spoilt(d, s, n, fault.left))
    else (true, Overwritten(d, s, n))
  }

  /** The loop of bdrv_commit from sector s on. */
  ghost function CopyFrom(over: Media, under: Media, env: Env, d: Images, s: int): (bool, Images)
    requires Honest(d.top, env)
    decreases over.totalSectors - s
  {
    if s >= over.totalSectors then (true, d)
    else if d.top(s).None? then CopyFrom(over, under, env, d, s + env.run(s))
    else
      var (ok, base) := CopyRun(over, under, env, d, s);
      if ok then CopyFrom(over, under, env, d.(base := base), s + env.run(s)) else (false, d.(base := base))
  }

  function MadeEmpty(d: Images, empty: Empty): Images {
    if empty.Unable? then d else d.(top := s => if empty.kept(s) then d.top(s) else None)
  }

  /** bdrv_open of the backing file with or without BDRV_O_RDWR. */
  function Reopened(m: Media, readOnly: bool): Backing {
    Backing(m.(readOnly := readOnly), readOnly)
  }

  /** What is left of a device whose backing image cannot be opened any more. */
  function Dead(o: Overlay): Overlay {
    o.(media := o.media.(driver := false), backing := None)
  }

  /** The loop and bdrv_make_empty: return code and images. */
  ghost function CopyAndEmpty(over: Media, under: Media, env: Env, d: Images): (int, Images)
    requires Honest(d.top, env)
  {
    var (ok, e) := CopyFrom(over, under, env, d, 0);
    if !ok then (-EIO, e) else (if env.empty.Unable? then 0 else env.empty.code, MadeEmpty(e, env.empty))
  }

  /** bdrv_commit: the return code, and the device afterwards. */
  ghost function Committed(o: Overlay, env: Env): (int, Overlay)
    requires Honest(o.files.top, env)
  {
    if !o.media.driver then (-ENOMEDIUM, o)
    else if o.backing.None? then (-ENOTSUP, o)
    else if o.backing.value.keepReadOnly then (-EACCES, o)
    else
      var under := o.backing.value.media;
      if !under.readOnly then
        var (ret, d) := CopyAndEmpty(o.media, under, env, o.files);
        (ret, o.(files := d))
      else if env.openRw < 0 then
        if env.openRo < 0 then (env.openRo, Dead(o))
        else (env.openRw, o.(backing := Some(Reopened(under, true))))
      else
        var (_, d) := CopyAndEmpty(o.media, under.(readOnly := false), env, o.files);
        if env.openRo < 0 then (env.openRo, Dead(o.(files := d)))
        else (env.openRo, o.(files := d, backing := Some(Reopened(under, true).(keepReadOnly := false))))
  }

  // ----- what a guest sees never changes -----

  lemma RunKeepsView(over: Media, under: Media, env: Env, d: Images, s: int)
    requires Honest(d.top, env) && d.top(s).Some?
    ensures var (ok, base) := CopyRun(over, under, env, d, s);
      && (forall k :: View(d.(base := base), k) == View(d, k))
      && (ok ==> forall k | s <= k < s + env.run(s) :: base(k) == View(d, k))
      && (forall k | !(s <= k < s + env.run(s)) :: base(k) == d.base(k))
  {
    hide Accepts, Writable;
    assert Uniform(d.top, s, env.run(s));
  }

  lemma {:induction false} CopyKeepsView(over: Media, under: Media, env: Env, d: Images, s: int)
    requires Honest(d.top, env)
    ensures var (ok, e) := CopyFrom(over, under, env, d, s);
      && e.top == d.top
      && (forall k :: View(e, k) == View(d, k))
      && (forall k | k < s :: e.base(k) == d.base(k))
      && (ok ==> forall k | s <= k < over.totalSectors :: e.base(k) == View(d, k))
    decreases over.totalSectors - s
  {
    if s < over.totalSectors {
      if d.top(s).None? {
        assert Uniform(d.top, s, env.run(s));
        CopyKeepsView(over, under, env, d, s + env.run(s));
      } else {
        RunKeepsView(over, under, env, d, s);
        var (ok, base) := CopyRun(over, under, env, d, s);
        if ok {
          CopyKeepsView(over, under, env, d.(base := base), s + env.run(s));
        }
      }
    }
  }

  /** The image under the overlay shows alone what the guest saw. */
  ghost predicate ShownBelow(o: Overlay, now: Images) {
    forall s | 0 <= s < o.media.totalSectors :: now.base(s) == View(o.files, s)
  }

  ghost predicate SameView(o: Overlay, now: Images) {
    forall s | 0 <= s < o.media.totalSectors :: View(now, s) == View(o.files, s)
  }

  lemma EmptyingKeepsView(o: Overlay, under: Media, env: Env)
    requires Honest(o.files.top, env)
    ensures var (ret, d) := CopyAndEmpty(o.media, under, env, o.files);
      && SameView(o, d)
      && (ret == 0 ==> ShownBelow(o, d))
      && (ret == 0 && env.empty.Emptied? ==> forall s :: d.top(s).None?)
  {
    hide CopyFrom;
    CopyKeepsView(o.media, under, env, o.files, 0);
  }

  /** Whatever fails, the guest's view stays sector by sector. */
  lemma CommitKeepsView(o: Overlay, env: Env)
    requires Honest(o.files.top, env)
    ensures SameView(o, Committed(o, env).1.files)
  {
    hide CopyAndEmpty, Honest;
    if o.backing.Some? {
      var under := o.backing.value.media;
      EmptyingKeepsView(o, under, env);
      EmptyingKeepsView(o, under.(readOnly := false), env);
    }
  }

  /** What becomes of the device itself: a refusal leaves all as it was, a backing image open for writing
      stays open, and one open for reading only is open so again unless it could not be reopened, and is kept
      so in future if it could not be opened for writing. */
  lemma AfterCommit(o: Overlay, env: Env)
    requires Honest(o.files.top, env)
    ensures var (ret, p) := Committed(o, env);
      && p.media == o.media.(driver := p.media.driver)
      && (!Committable(o) ==>
            && p == o
            && ret == if !o.media.driver then -ENOMEDIUM else if o.backing.None? then -ENOTSUP else -EACCES)
      && (Committable(o) && !o.backing.value.media.readOnly ==> p.backing == o.backing && p.media == o.media)
      && (Committable(o) && o.backing.value.media.readOnly ==>
            && (p.backing.Some? <==> env.openRo >= 0) && (p.media.driver <==> env.openRo >= 0)
            && (p.backing.Some? ==>
                  && p.backing.value.media == o.backing.value.media
                  && (p.backing.value.keepReadOnly <==> env.openRw < 0))
            && (env.openRw < 0 ==> p.files == o.files && ret < 0)
            && (env.openRo < 0 ==> ret == env.openRo))
  {
    hide CopyAndEmpty, Honest;
  }

  // ----- what the return code says -----

  /** A commit into an image that was open for writing, reported as done, is done. */
  lemma CommitDone(o: Overlay, env: Env)
    requires Honest(o.files.top, env)
    requires o.backing.Some? && !o.backing.value.media.readOnly
    requires Committed(o, env).0 == 0
    ensures ShownBelow(o, Committed(o, env).1.files)
    ensures env.empty.Emptied? ==> forall s :: Committed(o, env).1.files.top(s).None?
  {
    hide CopyAndEmpty, Honest, ShownBelow;
    EmptyingKeepsView(o, o.backing.value.media, env);
  }

  /** Nothing is in the way of copying the overlay's own sectors. */
  ghost predicate Clear(over: Media, under: Media, env: Env, top: int -> Option<Data>) {
    forall s | 0 <= s < over.totalSectors && top(s).Some? ::
      && env.fault(s).Good?
      && Accepts(over, SECTOR * s, SECTOR * env.run(s))
      && Writable(under, SECTOR * s, SECTOR * env.run(s))
  }

  lemma {:induction false} CopySucceeds(over: Media, under: Media, env: Env, d: Images, s: nat)
    requires Honest(d.top, env) && Clear(over, under, env, d.top)
    ensures CopyFrom(over, under, env, d, s).0
    decreases over.totalSectors - s
  {
    hide Accepts, Writable;
    if s < over.totalSectors {
      var e := if d.top(s).Some? then d.(base := CopyRun(over, under, env, d, s).1) else d;
      CopySucceeds(over, under, env, e, s + env.run(s));
    }
  }

  /** With nothing in the way, the commit is done and reported so, and the overlay left empty. */
  lemma CommitSucceeds(o: Overlay, env: Env)
    requires Honest(o.files.top, env) && Committable(o) && Clear(o.media, ReadWrite(o), env, o.files.top)
    requires env.openRw == env.openRo == 0 && env.empty.Emptied? && env.empty.code == 0
    ensures var (ret, p) := Committed(o, env);
      ret == 0 && p.backing == o.backing && ShownBelow(o, p.files) && forall s :: p.files.top(s).None?
  {
    hide CopyFrom, Honest, Clear, ShownBelow;
    CopySucceeds(o.media, ReadWrite(o), env, o.files, 0);
    EmptyingKeepsView(o, ReadWrite(o), env);
    assert !o.backing.value.media.readOnly ==> ReadWrite(o) == o.backing.value.media;
  }

  function ReadWrite(o: Overlay): Media
    requires Committable(o)
  {
    o.backing.value.media.(readOnly := false)
  }

  predicate Committable(o: Overlay) {
    o.media.driver && o.backing.Some? && !o.backing.value.keepReadOnly
  }

  /** Nothing can be read, and both reopenings succeed. */
  function Unreadable(): Env {
    Env(_ => 1, _ => BadRead, Unable, 0, 0)
  }

  lemma UnreadableIsHonest(top: int -> Option<Data>)
    ensures Honest(top, Unreadable())
  {
  }

  lemma {:induction false} NothingRead(over: Media, under: Media, d: Images, s: int)
    requires Honest(d.top, Unreadable())
    ensures CopyFrom(over, under, Unreadable(), d, s).1 == d
    decreases over.totalSectors - s
  {
    if s < over.totalSectors && d.top(s).None? {
      NothingRead(over, under, d, s + 1);
    }
  }

  /** Every write fails and leaves something else behind, and both reopenings succeed. */
  function Unwritable(d: Images): Env {
    Env(_ => 1, _ => BadWrite(k => View(d, k) + [0]), Unable, 0, 0)
  }

  lemma {:induction false} FirstSpoilt(over: Media, under: Media, d: Images, s: int, t: int)
    requires Honest(d.top, Unwritable(d))
    requires 0 <= s <= t < over.totalSectors && d.top(t).Some?
    requires Accepts(over, SECTOR * t, SECTOR) && Writable(under, SECTOR * t, SECTOR)
    ensures exists k :: s <= k <= t && CopyFrom(over, under, Unwritable(d), d, s).1.base(k) != View(d, k)
    decreases t - s
  {
    if d.top(s).None? {
      FirstSpoilt(over, under, d, s + 1, t);
    } else {
      assert CopyFrom(over, under, Unwritable(d), d, s).1.base(s) == View(d, s) + [0];
    }
  }

  /** A sector that a failing commit can leave wrong below the overlay. */
  predicate AtRisk(o: Overlay, under: Media, s: int) {
    && 0 <= s < o.media.totalSectors && o.files.top(s).Some?
    && (o.files.base(s) != View(o.files, s)
        || (Accepts(o.media, SECTOR * s, SECTOR) && Writable(under, SECTOR * s, SECTOR)))
  }

  lemma {:induction false} NoRiskNoChange(o: Overlay, under: Media, env: Env, s: nat)
    requires Honest(o.files.top, env) && forall k :: !AtRisk(o, under, k)
    ensures CopyFrom(o.media, under, env, o.files, s).1 == o.files
    decreases o.media.totalSectors - s
  {
    if s < o.media.totalSectors {
      if o.files.top(s).None? {
        NoRiskNoChange(o, under, env, s + env.run(s));
      } else {
        assert !AtRisk(o, under, s);
        assert env.run(s) >= 1;
      }
    }
  }

  ghost predicate Trusted(o: Overlay) {
    forall env | Honest(o.files.top, env) && Committed(o, env).0 == 0 :: ShownBelow(o, Committed(o, env).1.files)
  }

  lemma RiskBetrays(o: Overlay, s: int)
    requires Committable(o) && o.backing.value.media.readOnly && AtRisk(o, ReadWrite(o), s)
    ensures !Trusted(o)
  {
    var under := ReadWrite(o);
    if o.files.base(s) != View(o.files, s) {
      var env := Unreadable();
      UnreadableIsHonest(o.files.top);
      NothingRead(o.media, under, o.files, 0);
      assert Committed(o, env).1.files.base(s) != View(o.files, s);
    } else {
      var env := Unwritable(o.files);
      FirstSpoilt(o.media, under, o.files, 0, s);
      var k :| 0 <= k <= s && CopyFrom(o.media, under, env, o.files, 0).1.base(k) != View(o.files, k);
      assert Committed(o, env).1.files.base(k) != View(o.files, k);
    }
  }

  lemma NoRisk(o: Overlay, env: Env)
    requires Committable(o) && o.backing.value.media.readOnly && forall s :: !AtRisk(o, ReadWrite(o), s)
    requires Honest(o.files.top, env) && Committed(o, env).0 == 0
    ensures ShownBelow(o, Committed(o, env).1.files)
  {
    hide CopyFrom, Honest;
    NoRiskNoChange(o, ReadWrite(o), env, 0);
    assert Committed(o, env).1.files.base == o.files.base;
    forall s | 0 <= s < o.media.totalSectors
      ensures o.files.base(s) == View(o.files, s)
    {
      assert !AtRisk(o, ReadWrite(o), s);
    }
  }

  /** A return code of 0 can be relied on exactly when the backing image was open for writing, or no sector
      is at risk: when the image is reopened, the code of the last bdrv_open replaces that of the copy. */
  lemma ReportTrusted(o: Overlay)
    requires Committable(o)
    ensures Trusted(o) <==> !o.backing.value.media.readOnly || forall s :: !AtRisk(o, ReadWrite(o), s)
  {
    if !o.backing.value.media.readOnly {
      forall env | Honest(o.files.top, env) && Committed(o, env).0 == 0
        ensures ShownBelow(o, Committed(o, env).1.files)
      {
        CommitDone(o, env);
      }
    } else if s :| AtRisk(o, ReadWrite(o), s) {
      RiskBetrays(o, s);
    } else {
      forall env | Honest(o.files.top, env) && Committed(o, env).0 == 0
        ensures ShownBelow(o, Committed(o, env).1.files)
      {
        NoRisk(o, env);
      }
    }
  }

  // ----- bdrv_commit as it works on a device -----

  class OverlayDevice {
    var media: Media
    var backing: Option<Backing>
    var top: int -> Option<Data>
    var base: int -> Data

    function Files(): Images
      reads this
    {
      Images(top, base)
    }

    function State(): Overlay
      reads this
    {
      Overlay(media, backing, Files())
    }

    constructor (o: Overlay)
      ensures State() == o
    {
      media, backing, top, base := o.media, o.backing, o.files.top, o.files.base;
    }

    /** The sectors of one run, read into buf and written to the backing image (block.c:799-808). */
    method CopySectors(under: Media, env: Env, sector: int) returns (ok: bool)
      modifies this`base
      ensures (ok, base) == old(CopyRun(media, under, env, Files(), sector))
    {
      hide Accepts, Writable;
      var n, fault := env.run(sector), env.fault(sector);
      if !Accepts(media, SECTOR * sector, SECTOR * n) || fault.BadRead? {
        return false;
      }
      if !Writable(under, SECTOR * sector, SECTOR * n) {
        return false;
      }
      if fault.BadWrite? {
        base := Spoilt(Files(), sector, n, fault.left);
        return false;
      }
      base := Overwritten(Files(), sector, n);
      return true;
    }

    /** The loop and what follows it up to ro_cleanup (block.c:793-823). */
    method CopyAll(under: Media, env: Env) returns (ret: int)
      requires Honest(top, env)
      modifies this`base, this`top
      ensures (ret, Files()) == old(CopyAndEmpty(media, under, env, Files()))
    {
      hide CopyRun;
      ghost var start := Files();
      ret := 0;
      var sector := 0;
      while sector < media.totalSectors
        invariant top == start.top && Honest(top, env)
        invariant CopyFrom(media, under, env, Files(), sector) == CopyFrom(media, under, env, start, 0)
        decreases media.totalSectors - sector
      {
        if top(sector).Some? {
          var ok := CopySectors(under, env, sector);
          if !ok {
            return -EIO;
          }
        }
        sector := sector + env.run(sector);
      }
      if env.empty.Emptied? {
        top := MadeEmpty(Files(), env.empty).top;
        ret := env.empty.code;
      }
    }

    /** bdrv_commit (block.c:745-843). */
    method BdrvCommit(env: Env) returns (ret: int)
      requires Honest(top, env)
      modifies this
      ensures (ret, State()) == old(Committed(State(), env))
      ensures SameView(old(State()), Files())
      ensures old(backing.Some? && !backing.value.media.readOnly) && ret == 0 ==> ShownBelow(old(State()), Files())
    {
      hide Honest, CopyAndEmpty, SameView, ShownBelow;
      ghost var start := State();
      CommitKeepsView(start, env);
      if start.backing.Some? && !start.backing.value.media.readOnly && Committed(start, env).0 == 0 {
        CommitDone(start, env);
      }
      if !media.driver {
        return -ENOMEDIUM;
      }
      if backing.None? {
        return -ENOTSUP;
      }
      if backing.value.keepReadOnly {
        return -EACCES;
      }
      var under := backing.value.media;
      var ro := under.readOnly;
      if ro {
        backing := None;
        if env.openRw < 0 {
          if env.openRo < 0 {
            media := media.(driver := false);
            return env.openRo;
          }
          backing := Some(Reopened(under, true));
          return env.openRw;
        }
        backing := Some(Reopened(under, false));
      }
      ret := CopyAll(backing.value.media, env);
      if ro {
        backing := None;
        ret := env.openRo;
        if ret < 0 {
          media := media.(driver := false);
          return;
        }
        backing := Some(Reopened(under, true).(keepReadOnly := false));
      }
    }
  }
}
