/** Trusting a teammate: three ordered writes over two files, safe at every interruption. */
module Trust {
  import opened Bytes
  import opened Text

  datatype Mate = Mate(address: string, publicKey: string, url: string, mailbox: Option<string>)

  /** The two files: who is authorised, and whom the user sees. */
  datatype Disk = Disk(peers: map<string, string>, mates: map<string, Mate>)

  /** A checked invite; an empty `url` means none was verified. */
  datatype Invite = Invite(name: string, address: string, publicKey: string, url: string, mailbox: Option<string>)

  function Visible(mates: map<string, Mate>): set<string> {
    set n | n in mates && mates[n].address != "" :: mates[n].address
  }

  /** Every authorised identity is one the user can see. */
  ghost predicate Covered(d: Disk) { d.peers.Keys <= Visible(d.mates) }

  // ----- what is going to be written -------------------------------------------------------------

  function Saved(mates: map<string, Mate>, name: string): Mate {
    if name in mates then mates[name] else Mate("", "", "", None)
  }

  function NewMate(d: Disk, inv: Invite): Mate {
    var mate := Saved(d.mates, inv.name);
    var same := mate.address == inv.address && Lower(mate.publicKey) == Lower(inv.publicKey);
    Mate(inv.address, inv.publicKey,
         if inv.url != "" then inv.url else if same then mate.url else "",
         if inv.url != "" && inv.mailbox.Some? then inv.mailbox else if same then mate.mailbox else None)
  }

  function NewMates(d: Disk, inv: Invite): map<string, Mate> { d.mates[inv.name := NewMate(d, inv)] }

  predicate StillReferenced(mates: map<string, Mate>, name: string, address: string) {
    exists n :: n in mates && n != name && mates[n].address == address
  }

  /** The teammate's former address loses its authorisation with this invite. */
  predicate Replaced(d: Disk, inv: Invite) {
    var former := Saved(d.mates, inv.name).address;
    former != "" && former != inv.address && !StillReferenced(d.mates, inv.name, former)
  }

  function FinalPeers(d: Disk, inv: Invite): map<string, string> {
    (if Replaced(d, inv) then d.peers - {Saved(d.mates, inv.name).address} else d.peers)[inv.address := inv.publicKey]
  }

  function SafePeers(d: Disk, inv: Invite): map<string, string> {
    var kept := if Replaced(d, inv) then d.peers - {Saved(d.mates, inv.name).address} else d.peers;
    if inv.address in Visible(d.mates) then kept else kept - {inv.address}
  }

  // ----- the code -----------------------------------------------------------------------------------

  /** What befalls a write: it happens, it raises having changed nothing, or the process dies before or after it. */
  datatype Fate = Happens | Raises | DiesBefore | DiesAfter

  datatype Ending = Trusted | Failed | Crashed | ChangedConcurrently

  class TrustFiles {
    var peers: map<string, string>
    var mates: map<string, Mate>

    constructor (d: Disk)
      ensures View() == d
    {
      peers, mates := d.peers, d.mates;
    }

    function View(): Disk
      reads this
    {
      Disk(peers, mates)
    }

    /**
     * The update in `cmd_trust`, with `read` the files as loaded before the lock and one fate for each
     * write: safe peers, teammates, final peers, and the rollback.
     */
    method CmdTrust(read: Disk, inv: Invite, first: Fate, second: Fate, third: Fate, rollback: Fate) returns (e: Ending)
      requires inv.address != ""
      modifies this
      ensures View() == Outcome(read, old(View()), inv, first, second, third, rollback).0
      ensures e == Outcome(read, old(View()), inv, first, second, third, rollback).1
    {
      var st := NewMates(read, inv);
      var finalPeers := FinalPeers(read, inv);
      var safePeers := SafePeers(read, inv);
      if mates != read.mates || peers != read.peers {
        return ChangedConcurrently;
      }
      var safeWritten := safePeers != read.peers;
      if safeWritten {
        if first == Happens || first == DiesAfter {
          peers := safePeers;
        }
        if first == Raises {
          return Failed;
        }
        if first != Happens {
          return Crashed;
        }
      }
      if second == Raises {
        if safeWritten {
          if rollback == Happens || rollback == DiesAfter {
            peers := read.peers;
          }
          if rollback == DiesAfter || rollback == DiesBefore {
            return Crashed;
          }
        }
        return Failed;
      }
      if second == Happens || second == DiesAfter {
        mates := st;
      }
      if second != Happens {
        return Crashed;
      }
      if third == Happens || third == DiesAfter {
        peers := finalPeers;
      }
      return if third == Happens then Trusted else if third == Raises then Failed else Crashed;
    }
  }

  /** The files left behind, case by case. */
  function Outcome(read: Disk, d: Disk, inv: Invite, first: Fate, second: Fate, third: Fate, rollback: Fate): (Disk, Ending) {
    var safe, st, granted := SafePeers(read, inv), NewMates(read, inv), FinalPeers(read, inv);
    if d != read then (d, ChangedConcurrently)
    else if safe != d.peers && first == Raises then (d, Failed)
    else if safe != d.peers && first == DiesBefore then (d, Crashed)
    else if safe != d.peers && first == DiesAfter then (Disk(safe, d.mates), Crashed)
    else
      match second
      case Raises =>
        if safe == d.peers then (d, Failed)
        else if rollback == Happens then (d, Failed)
        else if rollback == DiesAfter then (d, Crashed)
        else (Disk(safe, d.mates), if rollback == Raises then Failed else Crashed)
      case DiesBefore => (Disk(safe, d.mates), Crashed)
      case DiesAfter => (Disk(safe, st), Crashed)
      case Happens =>
        match third
        case Happens => (Disk(granted, st), Trusted)
        case DiesAfter => (Disk(granted, st), Crashed)
        case Raises => (Disk(safe, st), Failed)
        case DiesBefore => (Disk(safe, st), Crashed)
  }

  // ----- safety -------------------------------------------------------------------------------------------

  lemma SafeIsFewer(d: Disk, inv: Invite)
    ensures SafePeers(d, inv).Keys <= d.peers.Keys
    ensures forall a :: a in SafePeers(d, inv) ==> SafePeers(d, inv)[a] == d.peers[a]
    ensures Replaced(d, inv) ==> Saved(d.mates, inv.name).address !in SafePeers(d, inv)
  {}

  /** Only the replaced address can disappear from view. */
  lemma StillVisible(d: Disk, inv: Invite, a: string)
    requires inv.address != ""
    ensures inv.address in Visible(NewMates(d, inv))
    ensures a in Visible(d.mates) && !(Replaced(d, inv) && a == Saved(d.mates, inv.name).address) ==> a in Visible(NewMates(d, inv))
  {
    hide NewMate;
    var m := NewMates(d, inv);
    assert inv.name in m && m[inv.name].address == inv.address by { MateAddress(d, inv); }
    if a in Visible(d.mates) && a != inv.address {
      var n :| n in d.mates && d.mates[n].address == a && a != "";
      if n != inv.name {
        assert n in m && m[n].address == a;
      } else if StillReferenced(d.mates, inv.name, a) {
        var k :| k in d.mates && k != inv.name && d.mates[k].address == a;
        assert k in m && m[k].address == a;
      }
    }
  }

  lemma MateAddress(d: Disk, inv: Invite)
    ensures NewMate(d, inv).address == inv.address
  {}

  lemma SafeCovered(d: Disk, inv: Invite)
    requires Covered(d) && inv.address != ""
    ensures Covered(Disk(SafePeers(d, inv), d.mates))
    ensures Covered(Disk(SafePeers(d, inv), NewMates(d, inv)))
  {
    hide Visible, SafePeers, NewMates, Replaced;
    SafeIsFewer(d, inv);
    forall a | a in SafePeers(d, inv) ensures a in Visible(NewMates(d, inv)) { StillVisible(d, inv, a); }
  }

  lemma FinalCovered(d: Disk, inv: Invite)
    requires Covered(d) && inv.address != ""
    ensures Covered(Disk(FinalPeers(d, inv), NewMates(d, inv)))
  {
    hide Visible, NewMates, Replaced;
    forall a | a in FinalPeers(d, inv) ensures a in Visible(NewMates(d, inv)) { StillVisible(d, inv, a); }
  }

  /** Whatever befalls each write, no identity is authorised that the user cannot see. */
  lemma TrustIsSafe(read: Disk, d: Disk, inv: Invite, first: Fate, second: Fate, third: Fate, rollback: Fate)
    requires Covered(d) && inv.address != ""
    ensures Covered(Outcome(read, d, inv, first, second, third, rollback).0)
  {
    hide Visible, NewMates, Replaced, SafePeers, FinalPeers;
    if d == read {
      SafeCovered(d, inv);
      FinalCovered(d, inv);
    }
  }

  /**
   * Fail closed: an entry present afterwards was there before, unless it is the invited one and all
   * three writes went through; and entries of identities not concerned are never lost.
   */
  lemma TrustGrantsLast(read: Disk, d: Disk, inv: Invite, first: Fate, second: Fate, third: Fate, rollback: Fate, a: string)
    requires inv.address != ""
    ensures var r := Outcome(read, d, inv, first, second, third, rollback).0;
            && (a in r.peers ==>
                  || (a in d.peers && r.peers[a] == d.peers[a])
                  || (a == inv.address && r.peers[a] == inv.publicKey && d == read && second == Happens && (third == Happens || third == DiesAfter)
                      && r.mates == NewMates(d, inv)))
            && (a in d.peers && a != inv.address && a != Saved(d.mates, inv.name).address ==> a in r.peers && r.peers[a] == d.peers[a])
  {
    hide Visible, NewMates;
  }

  datatype TrustRun = TrustRun(read: Disk, inv: Invite, first: Fate, second: Fate, third: Fate, rollback: Fate)

  function Runs(d: Disk, runs: seq<TrustRun>): Disk {
    if runs == [] then d
    else
      var r := runs[|runs| - 1];
      Outcome(r.read, Runs(d, runs[..|runs| - 1]), r.inv, r.first, r.second, r.third, r.rollback).0
  }

  /** Any number of attempts, each interrupted anywhere, from any safe pair of files. */
  lemma {:induction false} AlwaysCovered(d: Disk, runs: seq<TrustRun>)
    requires Covered(d) && forall i :: 0 <= i < |runs| ==> runs[i].inv.address != ""
    ensures Covered(Runs(d, runs))
  {
    hide Covered, Outcome;
    if runs != [] {
      AlwaysCovered(d, runs[..|runs| - 1]);
      var r := runs[|runs| - 1];
      TrustIsSafe(r.read, Runs(d, runs[..|runs| - 1]), r.inv, r.first, r.second, r.third, r.rollback);
    }
  }

  /**
   * The first write is needed: publishing the teammates before it leaves a replaced identity
   * authorised and unseen.
   */
  lemma WithoutSafeWrite(d: Disk, inv: Invite)
    requires inv.address != "" && Replaced(d, inv) && Saved(d.mates, inv.name).address in d.peers
    ensures !Covered(Disk(d.peers, NewMates(d, inv)))
  {
    hide NewMate;
    MateAddress(d, inv);
    var a := Saved(d.mates, inv.name).address;
    assert a !in Visible(NewMates(d, inv));
  }
}
