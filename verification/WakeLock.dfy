/** wakelock.js: a manager that follows the latest acquire or release call through
    asynchronous requests, releases by the browser and changes of visibility. */
module WakeLockModel {
  import opened Common

  datatype State = Released | Acquiring | AcquiringWantRelease | Acquired | AwaitingVisible

  datatype Call = NoCall | AcquireCall | ReleaseCall

  class WakeLockManager {
    var state: State
    var wakelock: Option<nat>

    // The browser: whether it has the API, what it shows, which listeners it knows,
    // which requests it has not answered, and which locks it has granted and not taken back.
    const apiAvailable: bool
    var hidden: bool
    var listeningVisibility: bool
    var listeningRelease: set<nat>
    var outstanding: set<nat>
    var live: set<nat>
    var nextId: nat

    /** The latest call, and whether the browser has refused or taken the lock since. */
    ghost var latest: Call
    ghost var denied: bool

    ghost predicate Valid()
      reads this
    {
      // a handle is held exactly while acquired, and it is the only lock alive
      && (wakelock.Some? <==> state == Acquired)
      && live == (if wakelock.Some? then {wakelock.value} else {})
      && listeningRelease == live
      // the visibility listener is registered exactly while awaiting
      && (listeningVisibility <==> state == AwaitingVisible)
      // exactly one request is outstanding exactly while acquiring
      && |outstanding| == (if state == Acquiring || state == AcquiringWantRelease then 1 else 0)
      && (forall id :: id in live || id in outstanding ==> id < nextId)
      // the latest call decides, unless the browser has refused since
      && (state in {Acquiring, Acquired, AwaitingVisible} <==> latest == AcquireCall && !denied)
      && (state == AcquiringWantRelease ==> latest == ReleaseCall)
    }

    constructor (apiAvailable: bool, hidden: bool)
      ensures Valid() && state == Released && latest == NoCall
    {
      this.apiAvailable, this.hidden := apiAvailable, hidden;
      state, wakelock, listeningVisibility := Released, None, false;
      listeningRelease, outstanding, live, nextId := {}, {}, {}, 0;
      latest, denied := NoCall, false;
    }

    // ---------- Calls ----------

    method Acquire()
      requires Valid()
      modifies this
      ensures Valid() && latest == AcquireCall && hidden == old(hidden)
      ensures state == match old(state)
                       case AcquiringWantRelease => Acquiring
                       case Released => if hidden then AwaitingVisible else if apiAvailable then Acquiring else Released
                       case s => s
      ensures live == old(live)
      ensures old(state) != Released ==> outstanding == old(outstanding)
    {
      latest, denied := AcquireCall, false;
      match state {
        case AcquiringWantRelease => state := Acquiring;
        case AwaitingVisible =>
        case Acquiring =>
        case Acquired =>
        case Released =>
          if hidden {
            AwaitVisible();
            return;
          }
          AcquireWakelockNow();
      }
    }

    method Release()
      requires Valid()
      modifies this
      ensures Valid() && latest == ReleaseCall && hidden == old(hidden)
      ensures live == {} && outstanding == old(outstanding)
      ensures state == if old(state) in {Acquiring, AcquiringWantRelease} then AcquiringWantRelease else Released
    {
      latest, denied := ReleaseCall, false;
      match state {
        case Released =>
        case AcquiringWantRelease =>
        case Acquiring => state := AcquiringWantRelease;
        case Acquired =>
          listeningRelease := listeningRelease - {wakelock.value};
          live := live - {wakelock.value};
          wakelock := None;
          state := Released;
        case AwaitingVisible =>
          listeningVisibility := false;
          state := Released;
      }
    }

    method AwaitVisible()
      modifies `listeningVisibility, `state
      ensures listeningVisibility && state == AwaitingVisible
    {
      listeningVisibility := true;
      state := AwaitingVisible;
    }

    /** The error state is left at once for the released state. */
    method AcquireWakelockNow()
      requires outstanding == {}
      modifies `state, `outstanding, `nextId, `denied
      ensures if apiAvailable then
                state == Acquiring && outstanding == {old(nextId)} && nextId == old(nextId) + 1 && denied == old(denied)
              else
                state == Released && outstanding == {} && nextId == old(nextId) && denied
    {
      if !apiAvailable {
        denied := true;
        state := Released;
        return;
      }
      outstanding := outstanding + {nextId};
      nextId := nextId + 1;
      state := Acquiring;
    }

    // ---------- The browser's answers and events ----------

    lemma OnlyRequest(id: nat)
      requires Valid() && id in outstanding
      ensures outstanding == {id} && (state == Acquiring || state == AcquiringWantRelease)
    {
      assert |outstanding - {id}| == 0;
    }

    /** A request succeeds; a lock that is no longer wanted is given back in the same step. */
    method Grant(id: nat)
      requires Valid() && id in outstanding
      modifies this
      ensures Valid() && outstanding == {} && latest == old(latest)
      ensures if old(state) == Acquiring then state == Acquired && live == {id} else state == Released && live == {}
    {
      OnlyRequest(id);
      outstanding := outstanding - {id};
      live := live + {id};
      if state == AcquiringWantRelease {
        live := live - {id};
        state := Released;
        return;
      }
      wakelock := Some(id);
      listeningRelease := listeningRelease + {id};
      state := Acquired;
    }

    method Reject(id: nat)
      requires Valid() && id in outstanding
      modifies this
      ensures Valid() && outstanding == {} && state == Released && latest == old(latest)
    {
      OnlyRequest(id);
      outstanding := outstanding - {id};
      denied := true;
      state := Released;
    }

    /** The browser takes the lock back and tells its listeners. */
    method BrowserReleases(id: nat)
      requires Valid() && id in live
      modifies this
      ensures Valid() && live == {} && outstanding == old(outstanding) && latest == old(latest)
      ensures state == if hidden then AwaitingVisible else Released
    {
      live := live - {id};
      listeningRelease := listeningRelease - {id};
      wakelock := None;
      if !hidden {
        denied := true;
        state := Released;
        return;
      }
      AwaitVisible();
    }

    method VisibilityChanges(nowHidden: bool)
      requires Valid()
      modifies this
      ensures Valid() && hidden == nowHidden && latest == old(latest)
      ensures old(state) == AwaitingVisible && !nowHidden ==>
                state == (if apiAvailable then Acquiring else Released)
      ensures old(state) != AwaitingVisible || nowHidden ==> state == old(state) && outstanding == old(outstanding)
      ensures live == old(live)
    {
      hidden := nowHidden;
      if listeningVisibility && !hidden {
        listeningVisibility := false;
        AcquireWakelockNow();
      }
    }

    /** In every reachable state: after a release nothing is held, and once no request is
        outstanding the manager is at rest; after an acquire it is on its way unless refused. */
    lemma LatestCallDecides()
      requires Valid()
      ensures latest == ReleaseCall ==> live == {} && wakelock == None && !listeningVisibility
      ensures latest == ReleaseCall && outstanding == {} ==> state == Released
      ensures latest == AcquireCall && !denied ==>
                live != {} || outstanding != {} || listeningVisibility
    {
      assert |outstanding| == 0 ==> outstanding == {};
    }
  }
}
