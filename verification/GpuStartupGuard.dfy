/** The crash marker of electron/gpu-startup-guard.ts across any sequence of launches. */
module GpuStartupGuard {
  import opened Wrappers

  const STALE_THRESHOLD_MS := 300000

  datatype Marker = Marker(ts: int, electronVersion: string)

  /**
   Everything a launch finds or does.  The clock is read twice, for judging an old marker
   and for writing the new one; the last four say which file operations succeed and how far
   it gets.
   */
  datatype Launch = Launch(
    confinedLinux: bool, enableGpu: bool, disableGpu: bool, userDataPath: string, electronVersion: string,
    readAt: int, writtenAt: int, readWorks: bool, writeWorks: bool, reachesAppReady: bool, unlinkWorks: bool)

  datatype Reason = NoReason | Env | CrashRecovery
  datatype Decision = Decision(disableGpu: bool, reason: Reason, markerPath: Option<string>)

  function MarkerPath(launch: Launch): string {
    launch.userDataPath + "/.gpu-launch-incomplete"
  }

  /** The marker this launch leaves while it is in flight. */
  function OwnMarker(launch: Launch): Marker {
    Marker(launch.writtenAt, launch.electronVersion)
  }

  /** A recent marker of the same Electron version; one that cannot be read counts as none. */
  predicate PreviousCrash(launch: Launch, marker: Option<Marker>) {
    && launch.readWorks
    && marker.Some?
    && launch.readAt - marker.value.ts < STALE_THRESHOLD_MS
    && marker.value.electronVersion == launch.electronVersion
  }

  /** One process; `markerOnDisk` is the file, which outlives it. */
  class Guard {
    var markerPath: Option<string>
    var markerOnDisk: Option<Marker>

    /** A fresh process on what the disk holds. */
    constructor (disk: Option<Marker>)
      ensures markerOnDisk == disk && markerPath.None?
    {
      markerPath, markerOnDisk := None, disk;
    }

    /** `readMarker`: absent, unreadable and malformed are all one. */
    method ReadMarker(readWorks: bool) returns (marker: Option<Marker>)
      ensures marker == if readWorks then markerOnDisk else None
    {
      marker := if readWorks then markerOnDisk else None;
    }

    method EvaluateGpuStartupGuard(launch: Launch) returns (decision: Decision)
      requires markerPath.None?
      modifies this
      ensures markerPath == decision.markerPath == if launch.confinedLinux then Some(MarkerPath(launch)) else None
      ensures markerOnDisk == if Writes(launch) then Some(OwnMarker(launch)) else old(markerOnDisk)
      ensures decision == Decide(launch, old(markerOnDisk))
    {
      if launch.confinedLinux {
        markerPath := Some(MarkerPath(launch));
      }
      if launch.enableGpu {
        return Decision(false, NoReason, markerPath);
      }
      if launch.disableGpu {
        return Decision(true, Env, markerPath);
      }
      if !launch.confinedLinux {
        markerPath := None;
        return Decision(false, NoReason, None);
      }
      var marker := ReadMarker(launch.readWorks);
      var previousCrash := && marker.Some? && launch.readAt - marker.value.ts < STALE_THRESHOLD_MS
                           && marker.value.electronVersion == launch.electronVersion;
      if launch.writeWorks {
        markerOnDisk := Some(Marker(launch.writtenAt, launch.electronVersion));
      }
      decision := Decision(previousCrash, if previousCrash then CrashRecovery else NoReason, markerPath);
    }

    method MarkGpuStartupSuccess(unlinkWorks: bool)
      modifies this`markerOnDisk
      ensures markerOnDisk == if markerPath.Some? && unlinkWorks then None else old(markerOnDisk)
    {
      if markerPath.None? {
        return;
      }
      if unlinkWorks {
        markerOnDisk := None;
      }
    }

    /** A whole launch: the guard, and later, if the app gets there, the success signal. */
    method RunLaunch(launch: Launch) returns (decision: Decision)
      requires markerPath.None?
      modifies this
      ensures decision == Decide(launch, old(markerOnDisk))
      ensures markerOnDisk == AfterLaunch(launch, old(markerOnDisk))
    {
      decision := EvaluateGpuStartupGuard(launch);
      if launch.reachesAppReady {
        MarkGpuStartupSuccess(launch.unlinkWorks);
      }
    }
  }

  /** The launch leaves its own marker while it is in flight. */
  predicate Writes(launch: Launch) {
    launch.confinedLinux && !launch.enableGpu && !launch.disableGpu && launch.writeWorks
  }

  /** The launch got to app-ready and removed the marker, its own or an older one. */
  predicate Clears(launch: Launch) {
    launch.confinedLinux && launch.reachesAppReady && launch.unlinkWorks
  }

  function Decide(launch: Launch, marker: Option<Marker>): Decision {
    var path := if launch.confinedLinux then Some(MarkerPath(launch)) else None;
    if launch.enableGpu then Decision(false, NoReason, path)
    else if launch.disableGpu then Decision(true, Env, path)
    else if launch.confinedLinux && PreviousCrash(launch, marker) then Decision(true, CrashRecovery, path)
    else Decision(false, NoReason, path)
  }

  function AfterLaunch(launch: Launch, marker: Option<Marker>): Option<Marker> {
    if Clears(launch) then None
    else if Writes(launch) then Some(OwnMarker(launch))
    else marker
  }

  /** The marker on disk after all launches, starting without one. */
  function MarkerAfter(launches: seq<Launch>): Option<Marker> {
    if launches == [] then None
    else AfterLaunch(launches[|launches| - 1], MarkerAfter(launches[..|launches| - 1]))
  }

  /** By the history alone: launch `i` was the last to write, and no launch from it on succeeded. */
  ghost predicate IsOpen(launches: seq<Launch>, i: nat) {
    && i < |launches|
    && launches[i].confinedLinux && !launches[i].enableGpu && !launches[i].disableGpu && launches[i].writeWorks
    && (forall j | i < j < |launches| && launches[j].confinedLinux && launches[j].writeWorks ::
          launches[j].enableGpu || launches[j].disableGpu)
    && (forall j | i <= j < |launches| && launches[j].confinedLinux && launches[j].reachesAppReady :: !launches[j].unlinkWorks)
  }

  /** The decision in one view: an override decides alone, enabling before disabling; the reason says which it was. */
  lemma DecisionIff(launch: Launch, marker: Option<Marker>)
    ensures var d := Decide(launch, marker);
            && (d.reason.Env? <==> !launch.enableGpu && launch.disableGpu)
            && (d.reason.CrashRecovery? <==>
                  && !launch.enableGpu && !launch.disableGpu && launch.confinedLinux
                  && launch.readWorks && marker.Some? && marker.value.electronVersion == launch.electronVersion
                  && launch.readAt < marker.value.ts + 300000)
            && (d.disableGpu <==> !d.reason.NoReason?)
            && d.markerPath == if launch.confinedLinux then Some(launch.userDataPath + "/.gpu-launch-incomplete") else None
  {
  }

  lemma OpenStaysOpen(launches: seq<Launch>, i: nat)
    requires launches != [] && !Writes(launches[|launches| - 1]) && !Clears(launches[|launches| - 1])
    ensures var front := launches[..|launches| - 1];
            (IsOpen(launches, i) <==> IsOpen(front, i)) && (IsOpen(launches, i) ==> launches[i] == front[i])
  {
    var front := launches[..|launches| - 1];
    assert forall j | 0 <= j < |front| :: front[j] == launches[j];
  }

  /** The marker records exactly the one open launch, if there is one. */
  lemma {:induction false} MarkerIsOpenLaunch(launches: seq<Launch>, marker: Marker)
    ensures MarkerAfter(launches) == Some(marker) <==>
            exists i: nat :: IsOpen(launches, i) && marker == OwnMarker(launches[i])
  {
    if launches != [] {
      var n := |launches| - 1;
      var front, last := launches[..n], launches[n];
      MarkerIsOpenLaunch(front, marker);
      if Clears(last) {
      } else if Writes(last) {
        assert IsOpen(launches, n);
      } else {
        forall i: nat {
          OpenStaysOpen(launches, i);
        }
      }
    }
  }

  /**
   The next launch disables the GPU for crash recovery if and only if it is confined and not
   overridden, the marker can be read, and the open launch wrote it under five minutes ago
   and ran the same Electron.
   */
  lemma {:induction false} CrashRecoveryIff(launches: seq<Launch>, next: Launch)
    ensures Decide(next, MarkerAfter(launches)) == Decision(true, CrashRecovery, Some(MarkerPath(next))) <==>
            && next.confinedLinux && !next.enableGpu && !next.disableGpu && next.readWorks
            && exists i: nat :: && IsOpen(launches, i)
                                && next.readAt - launches[i].writtenAt < STALE_THRESHOLD_MS
                                && launches[i].electronVersion == next.electronVersion
  {
    var marker := MarkerAfter(launches);
    if marker.Some? {
      MarkerIsOpenLaunch(launches, marker.value);
      var i: nat :| IsOpen(launches, i) && marker.value == OwnMarker(launches[i]);
      assert forall k: nat | IsOpen(launches, k) :: k == i;
    } else {
      forall i: nat
        ensures !IsOpen(launches, i)
      {
        if IsOpen(launches, i) {
          MarkerIsOpenLaunch(launches, OwnMarker(launches[i]));
        }
      }
    }
  }
}
