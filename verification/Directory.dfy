/** Directory listings: the filler FUSE hands to readdir and the loop of `bb_readdir`. */
module Directory {

  /** The part of `listing` that fits behind `stored`, up to the first refused entry. */
  function Fitting(accepts: (seq<string>, string) -> bool, stored: seq<string>, listing: seq<string>): (n: nat)
    ensures n <= |listing|
    decreases |listing|
  {
    if listing == [] || !accepts(stored, listing[0]) then 0
    else 1 + Fitting(accepts, stored + [listing[0]], listing[1..])
  }

  /** `Fitting` is the longest prefix whose entries are accepted one after the other. */
  lemma {:induction false} FittingIsLongest(accepts: (seq<string>, string) -> bool,
                                            stored: seq<string>, listing: seq<string>)
    ensures var n := Fitting(accepts, stored, listing);
            && (forall i :: 0 <= i < n ==> accepts(stored + listing[..i], listing[i]))
            && (n < |listing| ==> !accepts(stored + listing[..n], listing[n]))
    decreases |listing|
  {
    assert stored + listing[..0] == stored;
    if listing != [] && accepts(stored, listing[0]) {
      var n := Fitting(accepts, stored, listing);
      FittingIsLongest(accepts, stored + [listing[0]], listing[1..]);
      forall i | 0 < i <= n
        ensures stored + listing[..i] == stored + [listing[0]] + listing[1..][..i - 1]
      {
      }
      forall i | 0 <= i < n
        ensures accepts(stored + listing[..i], listing[i])
      {
        if 0 < i {
          assert listing[i] == listing[1..][i - 1];
        }
      }
    }
  }

  lemma {:induction false} FittingSplit(accepts: (seq<string>, string) -> bool,
                                        stored: seq<string>, listing: seq<string>, i: nat)
    requires i <= Fitting(accepts, stored, listing)
    ensures Fitting(accepts, stored, listing) == i + Fitting(accepts, stored + listing[..i], listing[i..])
    decreases i
  {
    if i == 0 {
      assert stored + listing[..0] == stored && listing[0..] == listing;
    } else {
      FittingSplit(accepts, stored + [listing[0]], listing[1..], i - 1);
      assert stored + [listing[0]] + listing[1..][..i - 1] == stored + listing[..i];
      assert listing[1..][i - 1..] == listing[i..];
    }
  }

  /** A filler with any rule for what still fits; once it has refused an entry it stays full. */
  class Filler {
    const accepts: (seq<string>, string) -> bool
    var stored: seq<string>
    var full: bool

    constructor (accepts: (seq<string>, string) -> bool)
      ensures this.accepts == accepts && stored == [] && !full
    {
      this.accepts, stored, full := accepts, [], false;
    }

    method Fill(name: string) returns (refused: bool)
      modifies this
      ensures refused == (old(full) || !accepts(old(stored), name))
      ensures stored == if refused then old(stored) else old(stored) + [name]
      ensures full == refused
    {
      refused := full || !accepts(stored, name);
      if !refused {
        stored := stored + [name];
      }
      full := refused;
    }
  }

  datatype DirReply = Listed | OutOfMemory | NoEntries

  /** The `do`/`while` loop of bbfs.c: it stops at the first refusal. A listing without
      any entry is reported as a read error. */
  method BbReaddir(listing: seq<string>, filler: Filler) returns (r: DirReply)
    requires !filler.full
    modifies filler
    ensures filler.stored ==
            old(filler.stored) + listing[..Fitting(filler.accepts, old(filler.stored), listing)]
    ensures r == NoEntries <==> listing == []
    ensures r == OutOfMemory <==> Fitting(filler.accepts, old(filler.stored), listing) < |listing|
    ensures filler.full <==> r == OutOfMemory
  {
    if listing == [] {
      return NoEntries;
    }
    var i := 0;
    while true
      invariant i < |listing| && !filler.full
      invariant i <= Fitting(filler.accepts, old(filler.stored), listing)
      invariant filler.stored == old(filler.stored) + listing[..i]
      decreases |listing| - i
    {
      FittingSplit(filler.accepts, old(filler.stored), listing, i);
      var refused := filler.Fill(listing[i]);
      if refused {
        return OutOfMemory;
      }
      i := i + 1;
      assert listing[..i] == listing[..i - 1] + [listing[i - 1]];
      if i == |listing| {
        break;
      }
    }
    r := Listed;
  }
}
