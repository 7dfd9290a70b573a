/**
 * The frontend side of the readiness handshake, as used by the simplest
 * frontend and by the synchronised-frontend template.
 *
 * The `SyncClient` library is not part of this model; it is represented by
 * the two flags its interface exposes: the readiness this frontend
 * advertises, and a pending trigger that `HasTrigger` reports once.
 */
module SyncFrontend {
  import opened Common
  import Decimal

  datatype SyncClient = SyncClient(ready: bool, pending: bool)

  /** The two frontends that share the handshake boilerplate. */
  datatype Flavour = Simplest | Template

  /** A trigger notification arrives from the coordinator: the pending flag is set. */
  function Deliver(c: SyncClient): (r: SyncClient)
    ensures r.pending && r.ready == c.ready
  {
    c.(pending := true)
  }

  /** Consume-once read: reports the pending trigger and clears it. */
  function HasTrigger(c: SyncClient): (r: (SyncClient, bool))
    ensures r.1 == c.pending
    ensures !r.0.pending && r.0.ready == c.ready
  {
    (c.(pending := false), c.pending)
  }

  function SetReady(c: SyncClient): (r: SyncClient)
    ensures r.ready && r.pending == c.pending
  {
    c.(ready := true)
  }

  function UnsetReady(c: SyncClient): (r: SyncClient)
    ensures !r.ready && r.pending == c.pending
  {
    c.(ready := false)
  }

  /**
   * `begin_of_run` (both flavours): advertise readiness.  `read_trigger_event`
   * does the same to the listener once it has closed the bank, so it is
   * modelled by this function too.
   */
  function BeginOfRun(c: SyncClient): (r: SyncClient)
    ensures r.ready && r.pending == c.pending
  {
    SetReady(c)
  }

  /** `end_of_run` (both flavours): withdraw readiness. */
  function EndOfRun(c: SyncClient): (r: SyncClient)
    ensures !r.ready && r.pending == c.pending
  {
    UnsetReady(c)
  }

  /** `pause_run` and `resume_run` (both flavours) leave the listener alone. */
  function PauseRun(c: SyncClient): (r: SyncClient)
    ensures r == c
  {
    c
  }

  /**
   * `poll_event`.  During calibration both return 0 without touching the
   * listener.  Otherwise both call `HasTrigger`, consuming any pending
   * trigger; the simplest frontend reports its result, the template
   * discards it and always reports an event.
   */
  function PollEvent(f: Flavour, c: SyncClient, test: bool): (r: (SyncClient, int))
    ensures test ==> r == (c, 0)
    ensures !test ==> r.0 == HasTrigger(c).0
    ensures !test && f == Simplest ==> (r.1 == 1 <==> c.pending) && (r.1 == 0 <==> !c.pending)
    ensures !test && f == Template ==> r.1 == 1
  {
    if test then (c, 0)
    else
      var (c', t) := HasTrigger(c);
      match f
      case Simplest => (c', if t then 1 else 0)
      case Template => (c', 1)
  }

  /** Two polls with no delivery in between report at most one trigger. */
  lemma SecondPollSeesNothing(c: SyncClient)
    ensures var (c1, n1) := PollEvent(Simplest, c, false);
      var (_, n2) := PollEvent(Simplest, c1, false);
      n1 == (if c.pending then 1 else 0) && n2 == 0
  {
  }

  /** The flavours disagree exactly when no trigger is pending. */
  lemma FlavoursDifferOnlyWithoutTrigger(c: SyncClient)
    ensures PollEvent(Simplest, c, false).0 == PollEvent(Template, c, false).0
    ensures PollEvent(Simplest, c, false).1 != PollEvent(Template, c, false).1 <==> !c.pending
  {
  }

  /** A poll step or a delivery from the coordinator. */
  datatype ClientEvent = Delivery | Poll

  function CountDeliveries(evs: seq<ClientEvent>): nat {
    if evs == [] then 0 else (if evs[0] == Delivery then 1 else 0) + CountDeliveries(evs[1..])
  }

  /** The number of polls that report an event, polling the simplest frontend outside calibration. */
  function Reported(c: SyncClient, evs: seq<ClientEvent>): nat
    decreases |evs|
  {
    if evs == [] then 0
    else if evs[0] == Delivery then Reported(Deliver(c), evs[1..])
    else
      var (c', n) := PollEvent(Simplest, c, false);
      n + Reported(c', evs[1..])
  }

  /** Consume-once: no more events are reported than triggers were delivered (plus one already pending). */
  lemma {:induction false} ReportedAtMostDelivered(c: SyncClient, evs: seq<ClientEvent>)
    ensures Reported(c, evs) <= CountDeliveries(evs) + (if c.pending then 1 else 0)
    decreases |evs|
  {
    if evs != [] {
      if evs[0] == Delivery {
        ReportedAtMostDelivered(Deliver(c), evs[1..]);
      } else {
        ReportedAtMostDelivered(PollEvent(Simplest, c, false).0, evs[1..]);
      }
    }
  }

  /** Every delivery is followed by a poll before the next delivery. */
  predicate PolledAfterEachDelivery(evs: seq<ClientEvent>) {
    forall k :: 0 <= k < |evs| && evs[k] == Delivery ==> k + 1 < |evs| && evs[k + 1] == Poll
  }

  /** When each delivery is polled before the next one arrives, none is lost. */
  lemma {:induction false} NoDeliveryLostWhenPolled(c: SyncClient, evs: seq<ClientEvent>)
    requires !c.pending && PolledAfterEachDelivery(evs)
    ensures Reported(c, evs) == CountDeliveries(evs)
    decreases |evs|
  {
    if evs != [] {
      assert PolledAfterEachDelivery(evs[1..]) by {
        forall k | 0 <= k < |evs[1..]| && evs[1..][k] == Delivery
          ensures k + 1 < |evs[1..]| && evs[1..][k + 1] == Poll
        {
          assert evs[k + 1] == Delivery;
        }
      }
      if evs[0] == Delivery {
        var rest := evs[1..];
        assert rest[0] == Poll;
        assert PolledAfterEachDelivery(rest[1..]) by {
          forall k | 0 <= k < |rest[1..]| && rest[1..][k] == Delivery
            ensures k + 1 < |rest[1..]| && rest[1..][k + 1] == Poll
          {
            assert evs[k + 2] == Delivery;
          }
        }
        var c1 := Deliver(c);
        var c2 := PollEvent(Simplest, c1, false).0;
        assert Reported(c, evs) == 1 + Reported(c2, rest[1..]);
        assert CountDeliveries(evs) == 1 + CountDeliveries(rest[1..]);
        NoDeliveryLostWhenPolled(c2, rest[1..]);
      } else {
        NoDeliveryLostWhenPolled(PollEvent(Simplest, c, false).0, evs[1..]);
      }
    }
  }

  // ---------------------------------------------------------------------
  // frontend_init of the simplest frontend

  const TriggerAddressKey: string := "Params/trigger-address"

  /** `exit(EXIT_FAILURE)`, or an uncaught exception from `std::stoi`. */
  datatype InitFailure = ExitFailure | StoiThrew

  datatype Endpoint = Endpoint(address: string, port: int)

  const IntMin: int := -0x8000_0000
  const IntMax: int := 0x7fff_ffff

  /** The number of leading characters of `s` satisfying `IsDigit`. */
  function DigitRun(s: string): (k: nat)
    ensures k <= |s|
    ensures forall i :: 0 <= i < k ==> Decimal.IsDigit(s[i])
    ensures k < |s| ==> !Decimal.IsDigit(s[k])
  {
    if s == [] || !Decimal.IsDigit(s[0]) then 0 else 1 + DigitRun(s[1..])
  }

  /**
   * `std::stoi(str)`: skip leading white space, read an optional sign and
   * the longest run of digits; no digits throws `invalid_argument`, a value
   * outside `int` throws `out_of_range` (both are None here).
   */
  function Stoi(s: string): (r: Option<int>)
    ensures r.Some? ==> IntMin <= r.value <= IntMax
    decreases |s|
  {
    if |s| > 0 && Decimal.IsSpace(s[0]) then Stoi(s[1..])
    else
      var negative := |s| > 0 && s[0] == '-';
      var body := if |s| > 0 && (s[0] == '-' || s[0] == '+') then s[1..] else s;
      var k := DigitRun(body);
      if k == 0 then None
      else
        var magnitude: int := Decimal.DigitsValue(body[..k]);
        var v := if negative then -magnitude else magnitude;
        if IntMin <= v <= IntMax then Some(v) else None
  }

  lemma {:induction false} DigitRunOfDigits(d: string, rest: string)
    requires Decimal.AllDigits(d)
    requires rest == [] || !Decimal.IsDigit(rest[0])
    ensures DigitRun(d + rest) == |d|
    decreases |d|
  {
    if d != [] {
      assert (d + rest)[1..] == d[1..] + rest;
      DigitRunOfDigits(d[1..], rest);
    } else {
      assert d + rest == rest;
    }
  }

  /** `std::stoi` reads back any `int` printed in decimal, whatever non-digit text follows it. */
  lemma StoiReadsDecimal(n: int, rest: string)
    requires IntMin <= n <= IntMax
    requires rest == [] || !Decimal.IsDigit(rest[0])
    ensures Stoi(Decimal.IntToString(n) + rest) == Some(n)
  {
    var m: nat := if n < 0 then -n else n;
    IntToStringShape(n, m, rest);
    StoiReadsDigits(m, rest, n < 0, Decimal.IntToString(n) + rest);
  }

  lemma IntToStringShape(n: int, m: nat, rest: string)
    requires m == if n < 0 then -n else n
    ensures Decimal.IntToString(n) + rest
         == if n < 0 then "-" + (Decimal.NatToString(m) + rest) else Decimal.NatToString(m) + rest
  {
  }

  lemma StoiReadsDigits(m: nat, rest: string, negative: bool, s: string)
    requires m <= (if negative then 0x8000_0000 else IntMax)
    requires rest == [] || !Decimal.IsDigit(rest[0])
    requires s == (if negative then "-" + (Decimal.NatToString(m) + rest) else Decimal.NatToString(m) + rest)
    ensures Stoi(s) == Some(if negative then -(m as int) else m as int)
  {
    var digits := Decimal.NatToString(m);
    Decimal.DigitsValueOfNatToString(m);
    if negative {
      StoiNegativeRun(digits, rest, s);
    } else {
      StoiPositiveRun(digits, rest, s);
    }
  }

  lemma StoiPositiveRun(digits: string, rest: string, s: string)
    requires |digits| > 0 && Decimal.AllDigits(digits) && Decimal.DigitsValue(digits) <= IntMax
    requires rest == [] || !Decimal.IsDigit(rest[0])
    requires s == digits + rest
    ensures Stoi(s) == Some(Decimal.DigitsValue(digits))
  {
    DigitRunOfDigits(digits, rest);
    assert s[..|digits|] == digits;
    assert s[0] == digits[0];
    assert !Decimal.IsSpace(s[0]) && s[0] != '-' && s[0] != '+';
  }

  lemma StoiNegativeRun(digits: string, rest: string, s: string)
    requires |digits| > 0 && Decimal.AllDigits(digits) && Decimal.DigitsValue(digits) <= 0x8000_0000
    requires rest == [] || !Decimal.IsDigit(rest[0])
    requires s == "-" + (digits + rest)
    ensures Stoi(s) == Some(-(Decimal.DigitsValue(digits) as int))
  {
    DigitRunOfDigits(digits, rest);
    var body := digits + rest;
    assert s[1..] == body;
    assert body[..|digits|] == digits;
    assert !Decimal.IsSpace(s[0]);
  }

  /**
   * `frontend_init` of the simplest frontend: both the address and the port
   * are read from the trigger-address key, and a missing key (or no ODB at
   * all) exits with `EXIT_FAILURE`.
   */
  function FrontendInit(odb: map<string, string>): (r: Result<Endpoint, InitFailure>)
    ensures r == Err(ExitFailure) <==> TriggerAddressKey !in odb
    ensures r.Ok? ==> TriggerAddressKey in odb && r.value.address == odb[TriggerAddressKey]
    ensures r.Ok? ==> Some(r.value.port) == Stoi(odb[TriggerAddressKey])
    ensures r == Err(StoiThrew) <==> TriggerAddressKey in odb && Stoi(odb[TriggerAddressKey]).None?
  {
    if TriggerAddressKey !in odb then Err(ExitFailure)
    else
      var text := odb[TriggerAddressKey];
      match Stoi(text)
      case None => Err(StoiThrew)
      case Some(port) => Ok(Endpoint(text, port))
  }

  /** A dotted address in the trigger-address key yields its first octet as the port. */
  lemma PortComesFromAddress()
    ensures FrontendInit(map[TriggerAddressKey := "10.0.0.5"]) == Ok(Endpoint("10.0.0.5", 10))
  {
    var s := "10.0.0.5";
    assert !Decimal.IsSpace(s[0]) && s[0] != '-' && s[0] != '+';
    assert DigitRun(s) == 2 by {
      assert DigitRun(s[2..]) == 0;
      assert s[1..][1..] == s[2..];
    }
    assert s[..2] == "10";
    assert Decimal.DigitsValue("10") == 10 by {
      assert Decimal.DigitsValue("10"[..1]) == 1;
    }
    assert Stoi(s) == Some(10);
  }
}
