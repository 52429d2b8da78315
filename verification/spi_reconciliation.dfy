/**
 Which calibration a Joy-Con ends up with: factory block, override magic and override block
 are requested one after the other, and their replies may arrive late, twice or not at all.
 */
module SpiReconciliation {
  import opened Bits
  import opened Wrappers
  import opened SpiCalibration

  const FACTORY_ADDR := 0x6020
  const MAGIC_ADDR := 0x8026
  const BLOCK_ADDR := 0x8028

  datatype State = State(cal: ImuCalibration, magicSeen: bool, pending: Option<seq<u8>>)

  const START := State(ZERO, false, None)

  function Adopt(cal: ImuCalibration, block: seq<u8>): ImuCalibration {
    match ParseBlock(block)
    case Some(parsed) => parsed
    case None => cal
  }

  function Replied(s: State, r: SpiReply): State {
    if r.addr == FACTORY_ADDR then
      if s.pending.None? || !s.magicSeen then s.(cal := Adopt(s.cal, r.data)) else s
    else if r.addr == MAGIC_ADDR then
      if !MagicPresent(r.data) then s.(magicSeen := false)
      else if s.pending.Some? then State(Adopt(s.cal, s.pending.value), true, None)
      else s.(magicSeen := true)
    else if r.addr == BLOCK_ADDR then
      if s.magicSeen then s.(cal := Adopt(s.cal, r.data)) else s.(pending := Some(r.data))
    else s
  }

  function Run(replies: seq<SpiReply>): State {
    if replies == [] then START else Replied(Run(replies[..|replies| - 1]), replies[|replies| - 1])
  }

  /** The reader's calibration state, updated in place per report. */
  class Reconciler {
    var cal: ImuCalibration
    var magicSeen: bool
    var pendingOverride: Option<seq<u8>>

    function View(): State
      reads this
    {
      State(cal, magicSeen, pendingOverride)
    }

    constructor ()
      ensures View() == START
    {
      cal, magicSeen, pendingOverride := ZERO, false, None;
    }

    method AdoptBlock(block: seq<u8>)
      modifies this`cal
      ensures cal == Adopt(old(cal), block)
    {
      var parsed := ParseBlock(block);
      if parsed.Some? {
        cal := parsed.value;
      }
    }

    method HandleReply(r: SpiReply)
      modifies this
      ensures View() == Replied(old(View()), r)
    {
      if r.addr == FACTORY_ADDR {
        if pendingOverride.None? || !magicSeen {
          AdoptBlock(r.data);
        }
      } else if r.addr == MAGIC_ADDR {
        magicSeen := MagicPresent(r.data);
        if magicSeen && pendingOverride.Some? {
          var data := pendingOverride.value;
          pendingOverride := None;
          AdoptBlock(data);
        }
      } else if r.addr == BLOCK_ADDR {
        if magicSeen {
          AdoptBlock(r.data);
        } else {
          pendingOverride := Some(r.data);
        }
      }
    }

    // A report that is not an acknowledged flash read leaves everything as it is.
    method HandleReport(buf: seq<u8>)
      modifies this
      ensures View() == match ParseReply(buf)
                        case Some(r) => Replied(old(View()), r)
                        case None => old(View())
      ensures |buf| < 20 || buf[0] != 0x21 || buf[13] != 0x90 || buf[14] != 0x10 || |buf| < 20 + (buf[19] as nat) ==>
                View() == old(View())
    {
      ReplyAcceptedIff(buf);
      var reply := ParseReply(buf);
      if reply.Some? {
        HandleReply(reply.value);
      }
    }
  }

  /* ---------- every run ---------- */

  // Replies about any other address than the three asked for change nothing, and neither does
  // a factory block too short to read.
  lemma OthersIgnored(s: State, r: SpiReply)
    requires r.addr !in {0x6020, 0x8026, 0x8028} || (r.addr == 0x6020 && |r.data| < 24)
    ensures Replied(s, r) == s
  {
    ParsedIsPlausible(r.data);
  }

  // A confirmed magic and a waiting override never stand side by side, and whatever is adopted is plausible.
  lemma {:induction false} NeverBoth(replies: seq<SpiReply>)
    ensures var s := Run(replies);
            !(s.magicSeen && s.pending.Some?) && Plausible(s.cal)
  {
    if replies == [] {
    } else {
      var n := |replies| - 1;
      var s, r := Run(replies[..n]), replies[n];
      NeverBoth(replies[..n]);
      ParsedIsPlausible(r.data);
      if s.pending.Some? {
        ParsedIsPlausible(s.pending.value);
      }
    }
  }

  // So the factory guard never holds anything back: every readable factory block is adopted,
  // an override in force or not.
  lemma FactoryAlwaysAdopted(replies: seq<SpiReply>, block: seq<u8>)
    requires |block| >= 24
    ensures var s := Run(replies + [SpiReply(FACTORY_ADDR, block)]);
            s == Run(replies).(cal := ParseBlock(block).value)
  {
    NeverBoth(replies);
    ParsedIsPlausible(block);
    assert (replies + [SpiReply(FACTORY_ADDR, block)])[..|replies|] == replies;
  }

  /* ---------- which block wins ---------- */

  predicate IsFactory(r: SpiReply) {
    r.addr == 0x6020 && |r.data| >= 24
  }

  predicate IsMagic(r: SpiReply) {
    r.addr == 0x8026
  }

  predicate IsBlock(r: SpiReply) {
    r.addr == 0x8028
  }

  // The controller answers as one with an override programmed does.
  predicate Programmed(r: SpiReply) {
    (IsMagic(r) ==> MagicPresent(r.data)) && (IsBlock(r) ==> |r.data| >= 24)
  }

  function LastFactory(rs: seq<SpiReply>): (i: int)
    ensures -1 <= i < |rs| && (i >= 0 ==> IsFactory(rs[i])) && forall j :: i < j < |rs| ==> !IsFactory(rs[j])
  {
    if rs == [] then -1 else if IsFactory(rs[|rs| - 1]) then |rs| - 1 else LastFactory(rs[..|rs| - 1])
  }

  function LastBlock(rs: seq<SpiReply>): (i: int)
    ensures -1 <= i < |rs| && (i >= 0 ==> IsBlock(rs[i])) && forall j :: i < j < |rs| ==> !IsBlock(rs[j])
  {
    if rs == [] then -1 else if IsBlock(rs[|rs| - 1]) then |rs| - 1 else LastBlock(rs[..|rs| - 1])
  }

  // |rs| if there is none.
  function FirstMagic(rs: seq<SpiReply>): (i: nat)
    ensures i <= |rs| && (i < |rs| ==> IsMagic(rs[i])) && forall j :: 0 <= j < i ==> !IsMagic(rs[j])
  {
    if rs == [] then 0
    else
      var earlier := FirstMagic(rs[..|rs| - 1]);
      if earlier < |rs| - 1 || IsMagic(rs[|rs| - 1]) then earlier else |rs|
  }

  // The override takes force when its last block and the first magic are both in; only a
  // factory block after that displaces it.
  predicate OverrideWins(rs: seq<SpiReply>) {
    LastBlock(rs) >= 0 && FirstMagic(rs) < |rs| &&
    (LastFactory(rs) < LastBlock(rs) || LastFactory(rs) < FirstMagic(rs))
  }

  function Winner(rs: seq<SpiReply>): ImuCalibration {
    if OverrideWins(rs) then Adopt(ZERO, rs[LastBlock(rs)].data)
    else if LastFactory(rs) >= 0 then Adopt(ZERO, rs[LastFactory(rs)].data)
    else ZERO
  }

  function Expected(rs: seq<SpiReply>): State {
    State(Winner(rs), FirstMagic(rs) < |rs|,
          if FirstMagic(rs) == |rs| && LastBlock(rs) >= 0 then Some(rs[LastBlock(rs)].data) else None)
  }

  lemma ExpectedSnoc(front: seq<SpiReply>, r: SpiReply)
    requires Programmed(r) && forall i :: 0 <= i < |front| ==> Programmed(front[i])
    ensures Expected(front + [r]) == Replied(Expected(front), r)
  {
    var rs := front + [r];
    assert rs[..|front|] == front;
    if IsFactory(r) {
    } else if IsMagic(r) {
    } else if IsBlock(r) {
    } else {
    }
  }

  // For every order and repetition of factory replies, magic and override blocks, junk
  // between them included.
  lemma {:induction false} WinnerTakesAll(rs: seq<SpiReply>)
    requires forall i :: 0 <= i < |rs| ==> Programmed(rs[i])
    ensures Run(rs) == Expected(rs)
  {
    if rs == [] {
    } else {
      var n := |rs| - 1;
      WinnerTakesAll(rs[..n]);
      ExpectedSnoc(rs[..n], rs[n]);
      assert rs == rs[..n] + [rs[n]];
    }
  }

  // A readable factory block after both the last override block and the first magic.
  predicate FactoryAfter(rs: seq<SpiReply>, i: int) {
    LastBlock(rs) < i < |rs| && FirstMagic(rs) < i && IsFactory(rs[i])
  }

  lemma OverrideWinsIff(rs: seq<SpiReply>)
    requires LastBlock(rs) >= 0 && FirstMagic(rs) < |rs|
    ensures OverrideWins(rs) <==> forall i :: !FactoryAfter(rs, i)
  {
    var f := LastFactory(rs);
    assert f != LastBlock(rs) && f != FirstMagic(rs);
    assert FactoryAfter(rs, f) || OverrideWins(rs);
  }

  lemma CalIsWinner(rs: seq<SpiReply>)
    requires forall i :: 0 <= i < |rs| ==> Programmed(rs[i])
    ensures Run(rs).cal == Winner(rs)
  {
    WinnerTakesAll(rs);
  }

  lemma WinnerBlock(rs: seq<SpiReply>)
    requires forall i :: 0 <= i < |rs| ==> Programmed(rs[i])
    requires LastBlock(rs) >= 0 && FirstMagic(rs) < |rs|
    ensures Some(Winner(rs)) == ParseBlock(rs[if OverrideWins(rs) then LastBlock(rs) else LastFactory(rs)].data)
  {
    ParsedIsPlausible(rs[LastBlock(rs)].data);
    if LastFactory(rs) >= 0 {
      ParsedIsPlausible(rs[LastFactory(rs)].data);
    }
  }

  // When the one factory reply comes first, any later order ends on the last override block.
  lemma FactoryFirst(rs: seq<SpiReply>)
    requires forall i :: 0 <= i < |rs| ==> Programmed(rs[i])
    requires forall i :: 0 < i < |rs| ==> rs[i].addr != FACTORY_ADDR
    requires LastBlock(rs) >= 0 && FirstMagic(rs) < |rs|
    ensures Some(Run(rs).cal) == ParseBlock(rs[LastBlock(rs)].data)
  {
    CalIsWinner(rs);
    WinnerBlock(rs);
    OverrideWinsIff(rs);
  }

  /* ---------- replies of every kind ---------- */

  // Whether the last magic reply confirmed the override.
  predicate MagicStanding(rs: seq<SpiReply>) {
    rs != [] &&
    if IsMagic(rs[|rs| - 1]) then MagicPresent(rs[|rs| - 1].data) else MagicStanding(rs[..|rs| - 1])
  }

  predicate Confirms(r: SpiReply) {
    IsMagic(r) && MagicPresent(r.data)
  }

  // Between the i-th reply and the t-th no other override block and no confirmation.
  predicate Undisturbed(rs: seq<SpiReply>, i: nat, t: nat)
    requires t <= |rs|
  {
    forall j :: i < j < t ==> !IsBlock(rs[j]) && !Confirms(rs[j])
  }

  // The block of the i-th reply comes into force with the t-th: a factory block at once; an
  // override block at once if it was confirmed before, and otherwise with the first
  // confirmation after it, unless another override block came first.
  predicate ComesIntoForce(rs: seq<SpiReply>, i: nat, t: nat) {
    i <= t < |rs| && |rs[i].data| >= 24 &&
    if rs[i].addr == FACTORY_ADDR then t == i
    else IsBlock(rs[i]) &&
         if MagicStanding(rs[..i]) then t == i else i < t && Confirms(rs[t]) && Undisturbed(rs, i, t)
  }

  predicate Waits(rs: seq<SpiReply>, i: nat) {
    i < |rs| && IsBlock(rs[i]) && !MagicStanding(rs[..i]) && Undisturbed(rs, i, |rs|)
  }

  // The override block that waits for its confirmation, -1 if none does.
  function Waiting(rs: seq<SpiReply>): (w: int)
    ensures -1 <= w < |rs|
  {
    if rs == [] then -1
    else
      var n := |rs| - 1;
      if IsBlock(rs[n]) then (if MagicStanding(rs[..n]) then Waiting(rs[..n]) else n)
      else if Confirms(rs[n]) then -1
      else Waiting(rs[..n])
  }

  // The block the t-th reply brings into force, -1 if none.
  function BroughtBy(rs: seq<SpiReply>, t: nat): (i: int)
    requires t < |rs|
    ensures -1 <= i <= t
  {
    if IsFactory(rs[t]) || (IsBlock(rs[t]) && |rs[t].data| >= 24 && MagicStanding(rs[..t])) then t
    else if Confirms(rs[t]) && Waiting(rs[..t]) >= 0 && |rs[Waiting(rs[..t])].data| >= 24 then Waiting(rs[..t])
    else -1
  }

  function Current(rs: seq<SpiReply>): (i: int)
    ensures -1 <= i < |rs|
  {
    if rs == [] then -1
    else if BroughtBy(rs, |rs| - 1) >= 0 then BroughtBy(rs, |rs| - 1)
    else Current(rs[..|rs| - 1])
  }

  lemma {:induction false} NotBothSpecified(rs: seq<SpiReply>)
    ensures MagicStanding(rs) ==> Waiting(rs) == -1
  {
    if rs == [] {
    } else {
      NotBothSpecified(rs[..|rs| - 1]);
    }
  }

  function CalOf(rs: seq<SpiReply>, i: int): ImuCalibration
    requires -1 <= i < |rs|
  {
    if i < 0 then ZERO else Adopt(ZERO, rs[i].data)
  }

  function Described(rs: seq<SpiReply>): State {
    State(CalOf(rs, Current(rs)), MagicStanding(rs), if Waiting(rs) < 0 then None else Some(rs[Waiting(rs)].data))
  }

  lemma DescribedSnoc(front: seq<SpiReply>, r: SpiReply)
    ensures Described(front + [r]) == Replied(Described(front), r)
  {
    var rs := front + [r];
    assert rs[..|front|] == front;
    NotBothSpecified(front);
    if IsFactory(r) {
    } else if IsMagic(r) {
    } else if IsBlock(r) {
    } else {
    }
  }

  lemma {:induction false} RunIsDescribed(rs: seq<SpiReply>)
    ensures Run(rs) == Described(rs)
  {
    if rs == [] {
    } else {
      var n := |rs| - 1;
      RunIsDescribed(rs[..n]);
      DescribedSnoc(rs[..n], rs[n]);
      assert rs == rs[..n] + [rs[n]];
    }
  }

  lemma {:induction false} WaitingIff(rs: seq<SpiReply>, i: nat)
    ensures Waiting(rs) == i <==> Waits(rs, i)
  {
    if rs == [] {
    } else {
      var front, n := rs[..|rs| - 1], |rs| - 1;
      WaitingIff(front, i);
      NotBothSpecified(front);
      if i < n {
        assert front[..i] == rs[..i];
        assert Undisturbed(rs, i, |rs|) <==> Undisturbed(front, i, n) && !IsBlock(rs[n]) && !Confirms(rs[n]);
      }
    }
  }

  lemma BroughtIff(rs: seq<SpiReply>, i: nat, t: nat)
    requires t < |rs|
    ensures ComesIntoForce(rs, i, t) <==> BroughtBy(rs, t) == i
  {
    if i < t {
      var front := rs[..t];
      WaitingIff(front, i);
      assert front[..i] == rs[..i];
      assert Undisturbed(front, i, t) <==> Undisturbed(rs, i, t);
    }
  }

  // Nothing came into force after the t-th reply.
  ghost predicate LastForce(rs: seq<SpiReply>, t: int) {
    forall j: nat, u: nat :: ComesIntoForce(rs, j, u) ==> u <= t
  }

  lemma {:induction false} CurrentIs(rs: seq<SpiReply>) returns (t: int)
    ensures LastForce(rs, t) && t < |rs|
    ensures if t < 0 then Current(rs) == -1 else Current(rs) >= 0 && ComesIntoForce(rs, Current(rs), t)
  {
    if rs == [] {
      t := -1;
    } else {
      var n := |rs| - 1;
      var front := rs[..n];
      var b := BroughtBy(rs, n);
      if b >= 0 {
        t := n;
        BroughtIff(rs, b, n);
      } else {
        t := CurrentIs(front);
        forall j: nat, u: nat | ComesIntoForce(rs, j, u)
          ensures u <= t
        {
          BroughtIff(rs, j, u);
          assert u < n;
          PrefixForce(rs, n, j, u);
        }
        if t >= 0 {
          PrefixForce(rs, n, Current(front), t);
        }
      }
    }
  }

  lemma PrefixForce(rs: seq<SpiReply>, n: nat, i: nat, t: nat)
    requires t < n <= |rs|
    ensures ComesIntoForce(rs, i, t) <==> ComesIntoForce(rs[..n], i, t)
  {
    if i <= t {
      assert rs[..n][..i] == rs[..i];
    }
  }

  lemma ForceUnique(rs: seq<SpiReply>, i: nat, j: nat, t: nat)
    requires ComesIntoForce(rs, i, t) && ComesIntoForce(rs, j, t)
    ensures i == j
  {
    BroughtIff(rs, i, t);
    BroughtIff(rs, j, t);
  }

  // For every sequence of replies, with absent magics, short blocks and any other: the reader
  // ends on the block that came into force last, and on the initial calibration if none did.
  lemma LastForceWins(rs: seq<SpiReply>)
    ensures forall i: nat, t: nat :: ComesIntoForce(rs, i, t) && LastForce(rs, t) ==>
              Some(Run(rs).cal) == ParseBlock(rs[i].data)
    ensures (forall i: nat, t: nat :: !ComesIntoForce(rs, i, t)) ==> Run(rs).cal == ZERO
  {
    RunIsDescribed(rs);
    var u := CurrentIs(rs);
    forall i: nat, t: nat | ComesIntoForce(rs, i, t) && LastForce(rs, t)
      ensures Some(Run(rs).cal) == ParseBlock(rs[i].data)
    {
      assert u == t;
      ForceUnique(rs, i, Current(rs), t);
      ParsedIsPlausible(rs[i].data);
    }
    if forall i: nat, t: nat :: !ComesIntoForce(rs, i, t) {
      assert u < 0;
    }
  }

  // An override in force at t is kept if and only if nothing came into force after it, given
  // that what comes after reads differently.
  lemma ForceKeptIff(rs: seq<SpiReply>, i: nat, t: nat)
    requires ComesIntoForce(rs, i, t)
    requires forall j: nat, u: nat :: ComesIntoForce(rs, j, u) && u > t ==>
               ParseBlock(rs[j].data) != ParseBlock(rs[i].data)
    ensures Some(Run(rs).cal) == ParseBlock(rs[i].data) <==> LastForce(rs, t)
  {
    LastForceWins(rs);
    var u := CurrentIs(rs);
    assert ComesIntoForce(rs, Current(rs), u);
  }

  function Zeros(n: nat): seq<u8> {
    seq(n, _ => 0)
  }

  // A factory reply that is merely late: magic, override, factory, and the override is lost.
  lemma LateFactoryWins()
    ensures var magic, override, factory := [0xB2, 0xA1], [1] + Zeros(23), Zeros(24);
            var s := Run([SpiReply(MAGIC_ADDR, magic), SpiReply(BLOCK_ADDR, override),
                          SpiReply(FACTORY_ADDR, factory)]);
            s.magicSeen && Some(s.cal) == ParseBlock(factory) != ParseBlock(override)
  {
    var override, factory := [1] + Zeros(23), Zeros(24);
    var m, b, f := SpiReply(MAGIC_ADDR, [0xB2, 0xA1]), SpiReply(BLOCK_ADDR, override), SpiReply(FACTORY_ADDR, factory);
    var rs := [m, b, f];
    assert MagicPresent(m.data);
    assert rs[..2] == [m, b] && rs[..2][..1] == [m] && [m][..0] == [];
    assert [m, b][..1] == [m] && [m, b][1] == b && rs[2] == f;
    assert Run([m]).magicSeen && Run([m]).pending.None?;
    assert Run([m, b]).magicSeen && Run([m, b]).pending.None?;
    ParsedIsPlausible(factory);
    assert ParseBlock(factory).value.accelOffset[0] == 0;
    assert ReadI16(override, 0) == 1 && ReadI16(override, 2) == 0 && ReadI16(override, 4) == 0;
    assert ParseBlock(override).value.accelOffset[0] == 1;
  }
}
