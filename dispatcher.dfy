/** The command dispatcher (Protocolo.ResolverPedido): one request, the
    caller's address and the shared per-client counter table give exactly one
    response. The table is an object updated in place; Resolve is the value
    that each call must produce, and the lemmas state the protocol's promises
    about it. */
module Dispatcher {
  import opened Text
  import opened Codec
  import opened Plate

  const NotRecognised := "Comando no reconocido"
  const AccessGranted := "ACCESO_CONCEDIDO"
  const AccessDenied := "ACCESO_NEGADO"
  const InvalidPlate := "Placa no válida"
  const NoPrevious := "No hay solicitudes previas"

  /** Requests counted per client address. */
  type Counts = map<string, nat>

  /** Every recorded client has made at least one request. */
  predicate AllPositive(m: Counts) {
    forall c :: c in m ==> m[c] >= 1
  }

  /** The Dictionary<string,int> that the caller passes to ResolverPedido
      and that ContadorCliente mutates in place. */
  class ClientCounters {
    var counts: Counts

    /** The invariant the table keeps: every recorded client has a count of
        at least 1, so CONTADOR never reports zero requests. */
    ghost predicate Valid()
      reads this
    {
      AllPositive(counts)
    }

    constructor ()
      ensures Valid() && counts == map[]
    {
      counts := map[];
    }
  }

  /** The table after one increment-or-insert for `client`. */
  function Bumped(m: Counts, client: string): (r: Counts)
    ensures r.Keys == m.Keys + {client}
    ensures r[client] == (if client in m then m[client] + 1 else 1)
    ensures forall c :: c in m && c != client ==> r[c] == m[c]
  {
    if client in m then m[client := m[client] + 1] else m[client := 1]
  }

  /** Incrementing or inserting keeps every count at least 1 and always
      changes the table. */
  lemma BumpedPositive(m: Counts, client: string)
    ensures AllPositive(m) ==> AllPositive(Bumped(m, client))
    ensures Bumped(m, client) != m
  {
    if client in m {
      assert Bumped(m, client)[client] != m[client];
    } else {
      assert client in Bumped(m, client);
    }
  }

  /** ContadorCliente: increments the caller's count, or records it at 1. */
  method ContadorCliente(client: string, table: ClientCounters)
    requires table.Valid()
    modifies table
    ensures table.Valid()
    ensures table.counts == Bumped(old(table.counts), client)
  {
    if client in table.counts {
      table.counts := table.counts[client := table.counts[client] + 1];
    } else {
      table.counts := table.counts[client := 1];
    }
  }

  /** The OK message of CALCULO: the plate and its indicator in decimal. */
  function CalculoMessage(plate: string): string
    requires IsValidPlate(plate)
  {
    IsValidPlateIff(plate);
    plate + " " + NatToString(DayIndicator(plate) as nat)
  }

  /** The login check: exactly the two parameters root / admin20. */
  predicate IsRootLogin(parameters: seq<string>) {
    |parameters| == 2 && parameters[0] == "root" && parameters[1] == "admin20"
  }

  /** The response and the new table of one call. `coinIsZero` stands for
      the draw `new Random().Next(2) == 0`, which only the correct login
      consults. */
  function Resolve(req: Request, client: string, counts: Counts, coinIsZero: bool): (Response, Counts)
  {
    if req.command == "INGRESO" then
      if IsRootLogin(req.parameters) then
        (if coinIsZero then Response("OK", AccessGranted) else Response("NOK", AccessDenied), counts)
      else (Response("NOK", AccessDenied), counts)
    else if req.command == "CALCULO" then
      if |req.parameters| == 3 then
        if IsValidPlate(req.parameters[2]) then
          (Response("OK", CalculoMessage(req.parameters[2])), Bumped(counts, client))
        else (Response("NOK", InvalidPlate), counts)
      else (Response("NOK", NotRecognised), counts)
    else if req.command == "CONTADOR" then
      if client in counts then (Response("OK", NatToString(counts[client])), counts)
      else (Response("NOK", NoPrevious), counts)
    else (Response("NOK", NotRecognised), counts)
  }

  /** ResolverPedido: starts from the default NOK response and overrides it
      in the branch of the matching command; a valid CALCULO also records
      the call in the shared table. */
  method ResolverPedido(req: Request, client: string, table: ClientCounters, coinIsZero: bool)
    returns (resp: Response)
    requires table.Valid()
    modifies table
    ensures table.Valid()
    ensures (resp, table.counts) == Resolve(req, client, old(table.counts), coinIsZero)
  {
    resp := Response("NOK", NotRecognised);
    if req.command == "INGRESO" {
      if IsRootLogin(req.parameters) {
        resp := if coinIsZero then Response("OK", AccessGranted) else Response("NOK", AccessDenied);
      } else {
        resp := resp.(message := AccessDenied);
      }
    } else if req.command == "CALCULO" {
      if |req.parameters| == 3 {
        var plate := req.parameters[2];
        if IsValidPlate(plate) {
          resp := Response("OK", CalculoMessage(plate));
          ContadorCliente(client, table);
        } else {
          resp := resp.(message := InvalidPlate);
        }
      }
    } else if req.command == "CONTADOR" {
      if client in table.counts {
        resp := Response("OK", NatToString(table.counts[client]));
      } else {
        resp := resp.(message := NoPrevious);
      }
    }
  }

  /** The condition under which a call records anything. */
  predicate IsSuccessfulCalculo(req: Request) {
    req.command == "CALCULO" && |req.parameters| == 3 && IsValidPlate(req.parameters[2])
  }

  /** CALCULO with a valid plate answers OK with the plate and the weekday
      bit of its last digit in decimal, the message splitting into exactly
      those two tokens, and records exactly one request of the caller. */
  lemma CalculoAccepted(req: Request, client: string, counts: Counts, coinIsZero: bool)
    requires IsSuccessfulCalculo(req)
    ensures |req.parameters[2]| == 7 && IsDigit(req.parameters[2][6])
    ensures var (resp, counts') := Resolve(req, client, counts, coinIsZero);
            var plate := req.parameters[2];
            && resp.status == "OK"
            && Split(resp.message) == [plate, NatToString(Pow2(RestrictedBit(DigitValue(plate[6]))))]
            && counts' == Bumped(counts, client)
  {
    var plate := req.parameters[2];
    DayIndicatorOneBit(plate);
    var msg := CalculoMessage(plate);
    var digits := NatToString(DayIndicator(plate) as nat);
    IsValidPlateIff(plate);
    assert NoSpace(plate) by {
      forall i | 0 <= i < |plate| ensures plate[i] != ' ' {
        if i < 3 { } else { }
      }
    }
    assert NoSpace(digits) by {
      forall i | 0 <= i < |digits| ensures digits[i] != ' ' {
        assert IsDigit(digits[i]);
      }
    }
    SplitTokenSpace(plate, digits);
    SplitToken(digits);
  }

  /** CALCULO with three parameters and an invalid plate answers
      NOK "Placa no válida" and records nothing. */
  lemma CalculoRejectsPlate(req: Request, client: string, counts: Counts, coinIsZero: bool)
    requires req.command == "CALCULO" && |req.parameters| == 3
    requires !IsValidPlate(req.parameters[2])
    ensures Resolve(req, client, counts, coinIsZero) == (Response("NOK", InvalidPlate), counts)
  {
  }

  /** CALCULO with any other number of parameters is not treated as a plate
      error: the default NOK "Comando no reconocido" stays, nothing recorded. */
  lemma CalculoWrongArity(req: Request, client: string, counts: Counts, coinIsZero: bool)
    requires req.command == "CALCULO" && |req.parameters| != 3
    ensures Resolve(req, client, counts, coinIsZero) == (Response("NOK", NotRecognised), counts)
  {
  }

  /** INGRESO never touches the table; only root / admin20 can be granted,
      and then exactly when the coin comes up zero. */
  lemma IngresoOutcome(req: Request, client: string, counts: Counts, coinIsZero: bool)
    requires req.command == "INGRESO"
    ensures Resolve(req, client, counts, coinIsZero).1 == counts
    ensures Resolve(req, client, counts, coinIsZero).0 ==
              if IsRootLogin(req.parameters) && coinIsZero then Response("OK", AccessGranted)
              else Response("NOK", AccessDenied)
  {
  }

  /** CONTADOR never touches the table; it reports the caller's count when
      there is one, in canonical decimal (digits without a leading zero that
      read back as that number), and never "0" while every count is at
      least 1. */
  lemma ContadorOutcome(req: Request, client: string, counts: Counts, coinIsZero: bool)
    requires req.command == "CONTADOR"
    ensures Resolve(req, client, counts, coinIsZero).1 == counts
    ensures var resp := Resolve(req, client, counts, coinIsZero).0;
            if client in counts then
              && resp.status == "OK"
              && |resp.message| >= 1
              && (forall i :: 0 <= i < |resp.message| ==> IsDigit(resp.message[i]))
              && (|resp.message| > 1 ==> resp.message[0] != '0')
              && ParseNat(resp.message) == counts[client]
              && (AllPositive(counts) ==> resp.message != "0")
            else resp == Response("NOK", NoPrevious)
  {
    if client in counts {
      ParseNatToString(counts[client]);
    }
  }

  /** CONTADOR tells counts apart: for a known caller, two tables give the
      same answer if and only if they record the same count for it. */
  lemma ContadorDistinguishesCounts(req: Request, client: string, m1: Counts, m2: Counts, coinIsZero: bool)
    requires req.command == "CONTADOR"
    requires client in m1 && client in m2
    ensures (Resolve(req, client, m1, coinIsZero).0 == Resolve(req, client, m2, coinIsZero).0)
              <==> m1[client] == m2[client]
  {
    if Resolve(req, client, m1, coinIsZero).0 == Resolve(req, client, m2, coinIsZero).0 {
      NatToStringInjective(m1[client], m2[client]);
    }
  }

  /** Any other command, the empty one included, is not recognised. */
  lemma UnknownCommand(req: Request, client: string, counts: Counts, coinIsZero: bool)
    requires req.command !in {"INGRESO", "CALCULO", "CONTADOR"}
    ensures Resolve(req, client, counts, coinIsZero) == (Response("NOK", NotRecognised), counts)
  {
  }

  /** Frame of the dispatcher: the table changes if and only if the call is
      a successful CALCULO, and then by one increment-or-insert for the
      caller; every count stays at least 1. */
  lemma ResolveFrame(req: Request, client: string, counts: Counts, coinIsZero: bool)
    ensures var counts' := Resolve(req, client, counts, coinIsZero).1;
            && (counts' != counts <==> IsSuccessfulCalculo(req))
            && (IsSuccessfulCalculo(req) ==> counts' == Bumped(counts, client))
            && (AllPositive(counts) ==> AllPositive(counts'))
  {
    BumpedPositive(counts, client);
  }

  /** Every response is OK or NOK, and OK exactly for a successful CALCULO,
      a CONTADOR of a known client, or a correct login with the coin at
      zero. */
  lemma ResolveStatus(req: Request, client: string, counts: Counts, coinIsZero: bool)
    ensures var resp := Resolve(req, client, counts, coinIsZero).0;
            && (resp.status == "OK" || resp.status == "NOK")
            && (resp.status == "OK" <==>
                  || IsSuccessfulCalculo(req)
                  || (req.command == "CONTADOR" && client in counts)
                  || (req.command == "INGRESO" && IsRootLogin(req.parameters) && coinIsZero))
  {
  }

  /** Every response of the dispatcher survives the wire: encoding it and
      parsing the line again gives the same response. */
  lemma ResolveWireRoundTrip(req: Request, client: string, counts: Counts, coinIsZero: bool)
    ensures var resp := Resolve(req, client, counts, coinIsZero).0;
            ParseResponse(ResponseToString(resp)) == resp
  {
    var resp := Resolve(req, client, counts, coinIsZero).0;
    ResolveStatus(req, client, counts, coinIsZero);
    ResponseRoundTrip(resp);
  }

  /** The table after the caller's requests, in order; `coins[i]` is the
      draw made while serving `reqs[i]`. */
  function AfterRequests(reqs: seq<Request>, coins: seq<bool>, client: string, counts: Counts): Counts
    requires |coins| == |reqs|
    decreases |reqs|
  {
    if |reqs| == 0 then counts
    else
      var k := |reqs| - 1;
      Resolve(reqs[k], client, AfterRequests(reqs[..k], coins[..k], client, counts), coins[k]).1
  }

  /** Number of successful CALCULO requests in the run, whatever their first
      two parameters. */
  function SuccessfulCalculos(reqs: seq<Request>): nat
    decreases |reqs|
  {
    if |reqs| == 0 then 0
    else SuccessfulCalculos(reqs[..|reqs| - 1]) + if IsSuccessfulCalculo(reqs[|reqs| - 1]) then 1 else 0
  }

  /** Counting: after any run of requests the caller's count has grown by the
      number of successful CALCULO requests in it, the caller is recorded
      once any succeeded, and no other client's entry has changed. */
  lemma {:induction false} AfterRequestsCount(reqs: seq<Request>, coins: seq<bool>, client: string, counts: Counts)
    requires |coins| == |reqs|
    ensures var m := AfterRequests(reqs, coins, client, counts);
            && (client in m <==> client in counts || SuccessfulCalculos(reqs) > 0)
            && (client in m ==> m[client] == (if client in counts then counts[client] else 0) + SuccessfulCalculos(reqs))
            && (forall c :: c != client ==> (c in m <==> c in counts))
            && (forall c :: c != client && c in counts ==> m[c] == counts[c])
    decreases |reqs|
  {
    if |reqs| > 0 {
      var k := |reqs| - 1;
      AfterRequestsCount(reqs[..k], coins[..k], client, counts);
      ResolveFrame(reqs[k], client, AfterRequests(reqs[..k], coins[..k], client, counts), coins[k]);
    }
  }

  /** A new client that sends any run of requests and then CONTADOR is told
      how many of them were successful CALCULO requests, or NOK "No hay
      solicitudes previas" when none was. */
  lemma RunThenContador(reqs: seq<Request>, coins: seq<bool>, contador: Request,
                        client: string, counts: Counts, coinIsZero: bool)
    requires |coins| == |reqs|
    requires client !in counts
    requires contador.command == "CONTADOR"
    ensures var n := SuccessfulCalculos(reqs);
            Resolve(contador, client, AfterRequests(reqs, coins, client, counts), coinIsZero).0 ==
              if n == 0 then Response("NOK", NoPrevious) else Response("OK", NatToString(n))
  {
    AfterRequestsCount(reqs, coins, client, counts);
  }

  /** A new client that sends n CALCULO requests with valid plates and then
      CONTADOR gets OK "n"; with n = 0 it gets NOK "No hay solicitudes
      previas". */
  lemma CountThenContador(reqs: seq<Request>, coins: seq<bool>, contador: Request,
                          client: string, counts: Counts, coinIsZero: bool)
    requires |coins| == |reqs|
    requires client !in counts
    requires contador.command == "CONTADOR"
    requires forall i :: 0 <= i < |reqs| ==> IsSuccessfulCalculo(reqs[i])
    ensures Resolve(contador, client, AfterRequests(reqs, coins, client, counts), coinIsZero).0 ==
              if |reqs| == 0 then Response("NOK", NoPrevious) else Response("OK", NatToString(|reqs|))
  {
    AllSuccessfulCount(reqs);
    RunThenContador(reqs, coins, contador, client, counts, coinIsZero);
  }

  /** When every request of the run is a successful CALCULO, all of them count. */
  lemma {:induction false} AllSuccessfulCount(reqs: seq<Request>)
    requires forall i :: 0 <= i < |reqs| ==> IsSuccessfulCalculo(reqs[i])
    ensures SuccessfulCalculos(reqs) == |reqs|
    decreases |reqs|
  {
    if |reqs| > 0 {
      AllSuccessfulCount(reqs[..|reqs| - 1]);
    }
  }

  // ---------------------------------------------------------------------
  // The counter of the source is a C# int and is incremented with ++,
  // which wraps around (unchecked arithmetic) at Int32.MaxValue. The
  // members below model that increment as written; the rest of the model
  // uses the unbounded count above.

  const Int32Min: int := -0x8000_0000
  const Int32Max: int := 0x7FFF_FFFF

  predicate InInt32(x: int) {
    Int32Min <= x <= Int32Max
  }

  /** C# `x++` on an int in an unchecked context: two's-complement addition
      of 1, that is, x + 1 reduced modulo 2^32 into the int range. */
  function Int32Increment(x: int): (r: int)
    requires InInt32(x)
    ensures InInt32(r)
    ensures r == (x + 1 - Int32Min) % 0x1_0000_0000 + Int32Min
  {
    if x == Int32Max then Int32Min else x + 1
  }

  /** ContadorCliente as written, over 32-bit counts. */
  function BumpedAsWritten(m: map<string, int>, client: string): map<string, int>
    requires forall c :: c in m ==> InInt32(m[c])
  {
    if client in m then m[client := Int32Increment(m[client])] else m[client := 1]
  }

  /** As written, a client whose count is Int32.MaxValue gets a negative
      count from its next valid CALCULO, so a later CONTADOR would report a
      negative number of requests. */
  lemma CounterWrapsAsWritten(m: map<string, int>, client: string)
    requires forall c :: c in m ==> InInt32(m[c])
    requires client in m && m[client] == Int32Max
    ensures BumpedAsWritten(m, client)[client] == Int32Min
    ensures BumpedAsWritten(m, client)[client] < 1
  {
  }

  /** Below the wrap-around the 32-bit counter agrees with the unbounded one. */
  lemma BumpedAsWrittenAgrees(m: Counts, client: string)
    requires forall c :: c in m ==> m[c] <= Int32Max
    requires client in m ==> m[client] < Int32Max
    ensures BumpedAsWritten(m, client) == Bumped(m, client)
  {
  }
}
