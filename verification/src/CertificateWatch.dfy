/** `internal/metrics/tlswatch.go`: certificates are reloaded when the disk changes or a timer fires.
    The goroutine that notices changes hands a trigger over only while the goroutine that loads is
    waiting for one; the disk may change between any two of their steps. */
module CertificateWatch {
  import opened Options

  type Bytes = string
  type Serial = string

  /** The files of the directory, each missing or present. */
  datatype Disk = Disk(crt: Option<Bytes>, ca: Option<Bytes>, key: Option<Bytes>)

  /** What the certificate library makes of a certificate chain and a key: the serial of the
      certificate, or nothing when they do not fit together. */
  type Library = (Bytes, Bytes) -> Option<Serial>

  function Contents(file: Option<Bytes>): (bytes: Bytes) {
    if file.Some? then file.value else ""
  }

  /** The chain that updateCert builds: a line feed is added when the first file does not end with
      one, at the end of the second. */
  function Chain(crt: Option<Bytes>, ca: Option<Bytes>): (bytes: Bytes) {
    var first := Contents(crt);
    if ca.None? then first
    else if first != "" && first[|first| - 1] != '\n' then first + (ca.value + "\n")
    else first + ca.value
  }

  /** The second certificate starts on a line of its own exactly when the first file is missing,
      empty, or ends with a line feed; the line feed that is added does not bring that about. */
  lemma ChainSeparatesIff(crt: Option<Bytes>, ca: Bytes)
    ensures var n := |Contents(crt)|; var chain := Chain(crt, Some(ca));
            && ca <= chain[n..]
            && ((n == 0 || chain[n - 1] == '\n') <==>
                crt.None? || crt.value == "" || crt.value[|crt.value| - 1] == '\n')
  {
  }

  /** A chain is the certificate of the directory, if there is one, then the certificate of the
      authority, if there is one, and then a line feed if the former does not end with one. */
  predicate IsChain(chain: Bytes, read: Disk) {
    var crt := if read.crt.Some? then read.crt.value else "";
    var ca := if read.ca.Some? then read.ca.value else "";
    chain == crt + ca + if read.ca.Some? && crt != "" && crt[|crt| - 1] != '\n' then "\n" else ""
  }

  /** The loading goroutine. It waits for a trigger, sleeps, reads the three files one after the
      other, and installs what it has read. */
  datatype Worker =
    | Waiting
    | Sleeping
    | ReadCrt
    | ReadCa(crt: Option<Bytes>)
    | ReadKey(crt: Option<Bytes>, ca: Option<Bytes>)
    | Install(read: Disk)

  datatype Pair = Pair(chain: Bytes, key: Bytes)

  /** `events` file system events have not been looked at. The last five fields record history: how
      often the disk has changed, how often it had when the last load began, what that load read, what
      the last load that succeeded read, and whether a change went unnoticed while a load was under
      way (or before watching began). */
  datatype State = State(
    disk: Disk, events: nat, worker: Worker, cert: Option<Pair>, certSerial: Serial,
    changes: nat, loadStart: nat, lastRead: Disk, good: Disk, missed: bool)

  datatype Action =
    | Change(disk: Disk)  // a change on disk, with its event
    | TakeEvent           // the event is offered to the worker, or dropped
    | Poll                // so is the tick of the timer
    | Work                // the next step of the worker

  predicate Enabled(s: State, a: Action) {
    match a
    case Change(_) => true
    case TakeEvent => s.events > 0
    case Poll => true
    case Work => s.worker != Waiting
  }

  predicate Loading(w: Worker) {
    w != Waiting && w != Sleeping
  }

  /** The outcome of a load. */
  function Loaded(lib: Library, read: Disk): (r: Option<Serial>) {
    if read.key.None? then None else lib(Chain(read.crt, read.ca), read.key.value)
  }

  function PairOf(read: Disk): (r: Pair) {
    Pair(Chain(read.crt, read.ca), Contents(read.key))
  }

  /** The fields of the monitor, and the load that overwrites them. */
  class CertificateMonitor {
    const lib: Library
    var cert: Option<Pair>
    var certSerial: Serial

    constructor (lib: Library)
      ensures this.lib == lib && cert == None && certSerial == ""
    {
      this.lib := lib;
      cert := None;
      certSerial := "";
    }

    /** updateCert, where `disk` is what the three files contain as they are read. A load that fails
        changes nothing; one that succeeds installs the whole pair and its serial. */
    method UpdateCert(disk: Disk) returns (ok: bool)
      modifies this
      ensures ok <==> Loaded(lib, disk).Some?
      ensures ok ==> cert == Some(PairOf(disk)) && Some(certSerial) == Loaded(lib, disk)
      ensures !ok ==> cert == old(cert) && certSerial == old(certSerial)
      ensures ok ==>
        && disk.key.Some? && cert.Some? && cert.value.key == disk.key.value
        && lib(cert.value.chain, cert.value.key) == Some(certSerial)
        && IsChain(cert.value.chain, disk)
    {
      var certPEM := "";
      var certFiles := [disk.crt, disk.ca];
      for i := 0 to |certFiles|
        invariant i == 0 ==> certPEM == ""
        invariant i == 1 ==> certPEM == Contents(disk.crt)
        invariant i == 2 ==> certPEM == Chain(disk.crt, disk.ca)
      {
        if certFiles[i].Some? {
          var contents := certFiles[i].value;
          if |certPEM| > 0 && certPEM[|certPEM| - 1] != '\n' {
            contents := contents + "\n";
          }
          certPEM := certPEM + contents;
        }
      }
      if disk.key.None? {
        return false;
      }
      var loaded := lib(certPEM, disk.key.value);
      if loaded.None? {
        return false;
      }
      if loaded.value != certSerial {
        certSerial := loaded.value;
      }
      cert := Some(Pair(certPEM, disk.key.value));
      return true;
    }
  }

  function Installed(lib: Library, s: State, read: Disk): (s': State) {
    var serial := Loaded(lib, read);
    var next := s.(worker := Waiting, lastRead := read);
    if serial.None? then next
    else
      var renamed := if serial.value != s.certSerial then next.(certSerial := serial.value) else next;
      renamed.(cert := Some(PairOf(read)), good := read)
  }

  function Next(lib: Library, s: State, a: Action): (s': State)
    requires Enabled(s, a)
  {
    match a
    case Change(disk) => s.(disk := disk, changes := s.changes + 1, events := s.events + 1)
    case TakeEvent =>
      s.(events := s.events - 1,
         worker := if s.worker == Waiting then Sleeping else s.worker,
         missed := s.missed || Loading(s.worker))
    case Poll => if s.worker == Waiting then s.(worker := Sleeping) else s
    case Work =>
      match s.worker
      case Waiting => s
      case Sleeping => s.(worker := ReadCrt, loadStart := s.changes, missed := false)
      case ReadCrt => s.(worker := ReadCa(s.disk.crt))
      case ReadCa(crt) => s.(worker := ReadKey(crt, s.disk.ca))
      case ReadKey(crt, ca) => s.(worker := Install(Disk(crt, ca, s.disk.key)))
      case Install(read) => Installed(lib, s, read)
  }

  /** After the load at startup succeeded and watching began. The disk may have changed since; such
      a change has brought no event. */
  predicate Started(lib: Library, s: State) {
    && s.worker == Waiting && s.events == 0
    && Serves(lib, s, s.lastRead) && s.good == s.lastRead
    && s.loadStart <= s.changes && (s.loadStart == s.changes ==> s.lastRead == s.disk)
    && (s.missed <==> s.loadStart < s.changes)
  }

  ghost predicate IsRun(lib: Library, s: State, acts: seq<Action>)
    decreases |acts|
  {
    acts == [] || (Enabled(s, acts[0]) && IsRun(lib, Next(lib, s, acts[0]), acts[1..]))
  }

  ghost function After(lib: Library, s: State, acts: seq<Action>): (s': State)
    requires IsRun(lib, s, acts)
    decreases |acts|
  {
    if acts == [] then s else After(lib, Next(lib, s, acts[0]), acts[1..])
  }

  /** What the worker has read is what is on disk, as long as nothing changed since it began. */
  predicate ReadsDisk(s: State) {
    match s.worker
    case ReadCa(crt) => crt == s.disk.crt
    case ReadKey(crt, ca) => crt == s.disk.crt && ca == s.disk.ca
    case Install(read) => read == s.disk
    case Waiting => s.lastRead == s.disk
    case _ => true
  }

  /** The pair that is served is the one that `read` contained, it fits together, and the serial on
      record is its serial. */
  predicate Serves(lib: Library, s: State, read: Disk) {
    s.cert == Some(PairOf(read)) && Loaded(lib, read) == Some(s.certSerial)
  }

  ghost predicate Inv(lib: Library, s: State) {
    && Serves(lib, s, s.good)
    && s.loadStart <= s.changes
    && (s.loadStart == s.changes ==> ReadsDisk(s))
    && (s.worker == Waiting && Loaded(lib, s.lastRead).Some? ==> s.good == s.lastRead)
    && (s.loadStart == s.changes || s.events > 0 || s.worker == Sleeping || s.missed)
  }

  lemma StepKeepsInv(lib: Library, s: State, a: Action)
    requires Inv(lib, s) && Enabled(s, a)
    ensures Inv(lib, Next(lib, s, a))
  {
  }

  lemma {:induction false} RunKeepsInv(lib: Library, s: State, acts: seq<Action>)
    requires Inv(lib, s) && IsRun(lib, s, acts)
    ensures Inv(lib, After(lib, s, acts))
    decreases |acts|
  {
    if acts != [] {
      StepKeepsInv(lib, s, acts[0]);
      hide Inv;
      RunKeepsInv(lib, Next(lib, s, acts[0]), acts[1..]);
    }
  }

  /** What the last successful load of a run read: a load succeeds when the worker, about to install
      what it read, does its next step, and the certificate and the key it read fit together. */
  ghost function LastGood(lib: Library, s: State, acts: seq<Action>, before: Disk): (r: Disk)
    requires IsRun(lib, s, acts)
    decreases |acts|
  {
    if acts == [] then before
    else
      var now := if acts[0] == Work && s.worker.Install? && Loaded(lib, s.worker.read).Some? then s.worker.read
                 else before;
      LastGood(lib, Next(lib, s, acts[0]), acts[1..], now)
  }

  lemma {:induction false} GoodIsLastGood(lib: Library, s: State, acts: seq<Action>)
    requires IsRun(lib, s, acts)
    ensures After(lib, s, acts).good == LastGood(lib, s, acts, s.good)
    decreases |acts|
  {
    if acts != [] {
      GoodIsLastGood(lib, Next(lib, s, acts[0]), acts[1..]);
    }
  }

  /** At every moment the pair that is served is that of the last load that succeeded, taken as a
      whole, and the serial on record is its serial, whatever loads failed or files changed since. */
  lemma ServedPairIsLastLoaded(lib: Library, s: State, acts: seq<Action>)
    requires Started(lib, s) && IsRun(lib, s, acts)
    ensures Serves(lib, After(lib, s, acts), LastGood(lib, s, acts, s.lastRead))
  {
    RunKeepsInv(lib, s, acts);
    GoodIsLastGood(lib, s, acts);
  }

  /** No change is overlooked: once every event has been looked at and the worker is waiting again,
      the last load has read the disk as it is now, unless a change was noticed while a load was
      under way, and only then is a poll needed. What that load read is served if it fits together. */
  lemma QuietMeansUpToDate(lib: Library, s: State, acts: seq<Action>)
    requires Started(lib, s) && IsRun(lib, s, acts)
    requires var e := After(lib, s, acts); e.worker == Waiting && e.events == 0 && !e.missed
    ensures var e := After(lib, s, acts);
            && e.lastRead == e.disk
            && (Loaded(lib, e.disk).Some? ==> Serves(lib, e, e.disk))
  {
    RunKeepsInv(lib, s, acts);
  }

  ghost predicate Unchanging(acts: seq<Action>) {
    forall i | 0 <= i < |acts| :: !acts[i].Change?
  }

  /** The load under way, if there is one, began after the last change. */
  predicate LoadIsFresh(s: State) {
    s.worker == Sleeping || s.loadStart == s.changes
  }

  lemma {:induction false} FreshLoads(lib: Library, s: State, acts: seq<Action>)
    requires Inv(lib, s) && LoadIsFresh(s) && IsRun(lib, s, acts) && Unchanging(acts)
    ensures var e := After(lib, s, acts); Inv(lib, e) && LoadIsFresh(e) && e.disk == s.disk
    decreases |acts|
  {
    if acts != [] {
      StepKeepsInv(lib, s, acts[0]);
      hide Inv;
      FreshLoads(lib, Next(lib, s, acts[0]), acts[1..]);
    }
  }

  /** A poll while the worker waits makes up for everything missed: when the worker next waits, with
      no change on the way, it has read the disk as it is. */
  lemma PollCatchesUp(lib: Library, s0: State, before: seq<Action>, acts: seq<Action>)
    requires Started(lib, s0) && IsRun(lib, s0, before) && After(lib, s0, before).worker == Waiting
    requires var p := Next(lib, After(lib, s0, before), Poll);
             IsRun(lib, p, acts) && Unchanging(acts) && After(lib, p, acts).worker == Waiting
    ensures var e := After(lib, Next(lib, After(lib, s0, before), Poll), acts);
            && e.lastRead == e.disk == After(lib, s0, before).disk
            && (Loaded(lib, e.disk).Some? ==> Serves(lib, e, e.disk))
  {
    RunKeepsInv(lib, s0, before);
    var s := After(lib, s0, before);
    StepKeepsInv(lib, s, Poll);
    FreshLoads(lib, Next(lib, s, Poll), acts);
  }

  /** An event dropped while the worker sleeps loses nothing: when the worker next waits, with no
      change after the drop, it has read the disk with the change that the event stood for. */
  lemma DropWhileSleepingIsHarmless(lib: Library, s0: State, before: seq<Action>, acts: seq<Action>)
    requires Started(lib, s0) && IsRun(lib, s0, before)
    requires After(lib, s0, before).worker == Sleeping && After(lib, s0, before).events > 0
    requires var d := Next(lib, After(lib, s0, before), TakeEvent);
             IsRun(lib, d, acts) && Unchanging(acts) && After(lib, d, acts).worker == Waiting
    ensures var e := After(lib, Next(lib, After(lib, s0, before), TakeEvent), acts);
            && e.lastRead == e.disk == After(lib, s0, before).disk
            && (Loaded(lib, e.disk).Some? ==> Serves(lib, e, e.disk))
  {
    RunKeepsInv(lib, s0, before);
    var s := After(lib, s0, before);
    StepKeepsInv(lib, s, TakeEvent);
    FreshLoads(lib, Next(lib, s, TakeEvent), acts);
  }

  /** What is served: the key of the disk that was read, and the chain of its two certificate files, with
      the serial that the library finds for the two. */
  lemma ServedIs(lib: Library, s: State, read: Disk)
    requires Serves(lib, s, read)
    ensures read.key.Some? && s.cert.Some? && s.cert.value.key == read.key.value && IsChain(s.cert.value.chain, read)
    ensures lib(s.cert.value.chain, s.cert.value.key) == Some(s.certSerial)
  {
    var crt := Contents(read.crt);
    assert crt + "" == crt;
    if read.ca.Some? {
      assert crt + (read.ca.value + "\n") == crt + read.ca.value + "\n";
      assert crt + read.ca.value + "" == crt + read.ca.value;
    }
  }

  function Works(lib: Library, s: State, n: nat): (s': State)
    decreases n
  {
    if n == 0 then s else if s.worker == Waiting then s else Works(lib, Next(lib, s, Work), n - 1)
  }

  /** A load that is not disturbed comes to its end: it has read the disk, and serves what it has read if
      that fits together; otherwise what was served before is served still. */
  lemma LoadCompletes(lib: Library, s: State)
    requires s.worker == Sleeping
    ensures var e := Works(lib, s, 5);
            && e.worker == Waiting && e.lastRead == e.disk == s.disk
            && (if Loaded(lib, s.disk).Some? then Serves(lib, e, s.disk)
                else e.cert == s.cert && e.certSerial == s.certSerial)
  {
    var s1 := Next(lib, s, Work);
    var s2 := Next(lib, s1, Work);
    var s3 := Next(lib, s2, Work);
    var s4 := Next(lib, s3, Work);
    assert s4.worker == Install(s.disk);
    var s5 := Next(lib, s4, Work);
    assert Works(lib, s, 5) == Works(lib, s1, 4) == Works(lib, s2, 3) == Works(lib, s3, 2) == Works(lib, s4, 1)
        == Works(lib, s5, 0);
  }

  /** Whether an event has been taken while a load was under way, since the last one began. */
  ghost function TakenWhileLoading(lib: Library, s: State, acts: seq<Action>, before: bool): (r: bool)
    requires IsRun(lib, s, acts)
    decreases |acts|
  {
    if acts == [] then before
    else
      var now :=
        if acts[0] == TakeEvent then before || !(s.worker == Waiting || s.worker == Sleeping)
        else before && !(acts[0] == Work && s.worker == Sleeping);
      TakenWhileLoading(lib, Next(lib, s, acts[0]), acts[1..], now)
  }

  /** A change is missed only if its event comes while a load is under way. */
  lemma {:induction false} MissedIsTaken(lib: Library, s: State, acts: seq<Action>)
    requires IsRun(lib, s, acts)
    ensures After(lib, s, acts).missed == TakenWhileLoading(lib, s, acts, s.missed)
    decreases |acts|
  {
    if acts != [] {
      MissedIsTaken(lib, Next(lib, s, acts[0]), acts[1..]);
    }
  }
}
