/** The steps of a migration that move or replace the operator's own files:
    PreserveBinary (internal/backup/binary.go), installBinary and preserveUnit
    (internal/cutover/cutover.go). Each may be killed at any point and run
    again; a file is its whole content, so equal hashes stand for equal content. */
module HostFiles {
  import opened Prelude
  import opened AtomicFile
  import opened UnitFile

  type Files = map<string, File<string>>

  /** Where one migration finds and puts things. */
  datatype Paths = Paths(binary: string, sourceVersion: string, staged: string, unit: string, runID: string,
        config: string) {
    function OldBinary(): string {
      binary + ".v" + sourceVersion
    }

    function OldUnit(): string {
      unit + ".pre-" + runID
    }

    /** The binary and the unit are different files, and neither preserved copy
        lands on the other's path. */
    predicate Apart() {
      && unit != binary && unit != OldBinary()
      && OldUnit() != binary && OldUnit() != OldBinary()
    }
  }

  lemma PreservedElsewhere(p: Paths)
    ensures p.OldBinary() != p.binary && p.OldUnit() != p.unit
  {
    assert |p.OldBinary()| > |p.binary| && |p.OldUnit()| > |p.unit|;
  }

  /** How one rename goes. */
  datatype RenameFault = Works | Errs | KilledBefore | KilledAfter

  datatype OpResult = Ok | Err | Died

  predicate Readable(w: Files, path: string) {
    path in w && w[path].Intact?
  }

  // ----------------------------------------------------------- preserve-binary

  function Moved(w: Files, from: string, to: string): Files
    requires from in w
  {
    (w - {from})[to := w[from]]
  }

  /** What preserving the binary does when nothing goes wrong; None when it must fail. */
  function PreserveBinaryEffect(p: Paths, w: Files): Option<Files> {
    if p.sourceVersion == "" then None
    else if p.OldBinary() in w then Some(w)
    else if p.binary in w then Some(Moved(w, p.binary, p.OldBinary()))
    else None
  }

  /** The files a failed or killed attempt may leave. */
  predicate PreserveBinaryLeaves(p: Paths, w: Files, after: Files) {
    after == w || PreserveBinaryEffect(p, w) == Some(after)
  }

  method PreserveBinary(dir: Dir<string>, p: Paths, statErrs: bool, fault: RenameFault) returns (r: OpResult)
    modifies dir`files
    ensures PreserveBinaryLeaves(p, old(dir.files), dir.files)
    ensures r.Ok? ==> PreserveBinaryEffect(p, old(dir.files)) == Some(dir.files)
    ensures r.Err? ==> dir.files == old(dir.files)
    ensures !statErrs && fault.Works? ==> (r.Ok? <==> PreserveBinaryEffect(p, old(dir.files)).Some?)
  {
    if p.sourceVersion == "" {
      return Err;
    }
    var preserved := p.OldBinary();
    if statErrs {
      return Err;
    }
    if preserved in dir.files {
      return Ok;
    }
    if p.binary !in dir.files || fault.Errs? {
      return Err;
    }
    if fault.KilledBefore? {
      return Died;
    }
    dir.files := (dir.files - {p.binary})[preserved := dir.files[p.binary]];
    return if fault.KilledAfter? then Died else Ok;
  }

  // ------------------------------------------------------------ install-binary

  function InstallBinaryEffect(p: Paths, w: Files): Option<Files> {
    if Readable(w, p.staged) then Some(w[p.binary := w[p.staged]]) else None
  }

  predicate InstallBinaryLeaves(p: Paths, w: Files, after: Files) {
    after == w || InstallBinaryEffect(p, w) == Some(after)
  }

  function ResultFor(w: WriteResult): OpResult {
    match w
    case Written => Ok
    case WriteError => Err
    case Killed => Died
  }

  method InstallBinary(dir: Dir<string>, p: Paths, temp: string, fault: Fault) returns (r: OpResult)
    requires temp !in dir.temps
    modifies dir
    ensures InstallBinaryLeaves(p, old(dir.files), dir.files)
    ensures r.Ok? ==> InstallBinaryEffect(p, old(dir.files)) == Some(dir.files)
    ensures r.Err? ==> dir.files == old(dir.files)
    ensures fault.NoFault? ==> (r.Ok? <==> InstallBinaryEffect(p, old(dir.files)).Some?)
  {
    if p.staged !in dir.files || dir.files[p.staged].Torn? {
      return Err;
    }
    var data := dir.files[p.staged].value;
    if p.binary in dir.files && dir.files[p.binary] == Intact(data) {
      assert dir.files[p.binary := dir.files[p.staged]] == dir.files;
      return Ok;
    }
    var w := dir.WriteAtomic(p.binary, temp, data, fault);
    return ResultFor(w);
  }

  // ------------------------------------------------ update-service-definition

  function PreserveUnitEffect(p: Paths, w: Files): Option<Files> {
    if p.OldUnit() in w then Some(w)
    else if Readable(w, p.unit) then Some(w[p.OldUnit() := w[p.unit]])
    else None
  }

  method PreserveUnit(dir: Dir<string>, p: Paths, statErrs: bool, temp: string, fault: Fault) returns (r: OpResult)
    requires temp !in dir.temps
    modifies dir
    ensures dir.files == old(dir.files) || PreserveUnitEffect(p, old(dir.files)) == Some(dir.files)
    ensures r.Ok? ==> PreserveUnitEffect(p, old(dir.files)) == Some(dir.files)
    ensures r.Err? ==> dir.files == old(dir.files)
    ensures !r.Died? ==> dir.temps == old(dir.temps)
    ensures !statErrs && fault.NoFault? ==> (r.Ok? <==> PreserveUnitEffect(p, old(dir.files)).Some?)
  {
    if statErrs {
      return Err;
    }
    if p.OldUnit() in dir.files {
      return Ok;
    }
    if p.unit !in dir.files || dir.files[p.unit].Torn? {
      return Err;
    }
    var w := dir.WriteAtomic(p.OldUnit(), temp, dir.files[p.unit].value, fault);
    return ResultFor(w);
  }

  /** Preserve the unit, then rewrite it from the preserved copy. */
  function UpdateUnitEffect(p: Paths, w: Files): Option<Files> {
    match PreserveUnitEffect(p, w)
    case None => None
    case Some(kept) =>
      if !Readable(kept, p.OldUnit()) then None
      else
        match Rewritten(kept[p.OldUnit()].value, p.binary, p.config)
        case Failure(_) => None
        case Success(text) => Some(kept[p.unit := Intact(text)])
  }

  predicate UpdateUnitLeaves(p: Paths, w: Files, after: Files) {
    after == w || PreserveUnitEffect(p, w) == Some(after) || UpdateUnitEffect(p, w) == Some(after)
  }

  method UpdateServiceDefinition(dir: Dir<string>, p: Paths, statErrs: bool,
                                 temp: string, fault: Fault, hashErrs: bool, temp2: string, fault2: Fault)
    returns (r: OpResult)
    requires temp !in dir.temps && temp2 !in dir.temps
    modifies dir
    ensures UpdateUnitLeaves(p, old(dir.files), dir.files)
    ensures r.Ok? ==> UpdateUnitEffect(p, old(dir.files)) == Some(dir.files)
    ensures !statErrs && !hashErrs && fault.NoFault? && fault2.NoFault? ==>
              (r.Ok? <==> UpdateUnitEffect(p, old(dir.files)).Some?)
  {
    hide Rewritten;
    r := PreserveUnit(dir, p, statErrs, temp, fault);
    if r != Ok {
      return;
    }
    if hashErrs || dir.files[p.OldUnit()].Torn? {
      return Err;
    }
    var original := dir.files[p.OldUnit()].value;
    var rewritten := RewriteUnit(original, p.binary, p.config);
    if rewritten.Failure? {
      return Err;
    }
    var w := dir.WriteAtomic(p.unit, temp2, rewritten.value, fault2);
    return ResultFor(w);
  }

  // --------------------------------------------------------------- retry safety

  /** Each of the three steps, run again from whatever a failed, killed or
      completed attempt left, has the effect it would have had the first time. */
  lemma StepsAreRetrySafe(p: Paths, w: Files, after: Files)
    ensures PreserveBinaryLeaves(p, w, after) ==> PreserveBinaryEffect(p, after) == PreserveBinaryEffect(p, w)
    ensures InstallBinaryLeaves(p, w, after) ==> InstallBinaryEffect(p, after) == InstallBinaryEffect(p, w)
    ensures UpdateUnitLeaves(p, w, after) ==> UpdateUnitEffect(p, after) == UpdateUnitEffect(p, w)
  {
    hide Rewritten;
    PreservedElsewhere(p);
    if InstallBinaryEffect(p, w) == Some(after) {
      assert after[p.binary := after[p.staged]] == after;
    }
    if UpdateUnitEffect(p, w) == Some(after) {
      assert after[p.unit := after[p.unit]] == after;
    }
  }
}
