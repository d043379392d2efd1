/** Concrete exchanges of the service, from request line to response line,
    composed from the codec and the dispatcher. */
module Scenarios {
  import opened Text
  import opened Codec
  import opened Plate
  import opened Dispatcher

  /** One exchange as the server performs it: decode the line, dispatch it,
      encode the response. */
  function Exchange(line: string, client: string, counts: Counts, coinIsZero: bool): (string, Counts) {
    var (resp, counts') := Resolve(ParseRequest(line), client, counts, coinIsZero);
    (ResponseToString(resp), counts')
  }

  // Each example is proved through small helper lemmas below: one parses
  // the line, one resolves the request and one writes the response line.

  /** "calculo x y ABC1234" answers "OK ABC1234 16" (Tuesday) and records
      the call. */
  lemma ExampleCalculo(client: string, counts: Counts, coinIsZero: bool)
    ensures Exchange("calculo x y ABC1234", client, counts, coinIsZero) == ("OK ABC1234 16", Bumped(counts, client))
  {
    ParseCalculoLine("calculo x y ABC1234", "x", "y", "ABC1234");
    PlateABC1234Accepted(client, counts, coinIsZero);
    OkABC1234Line();
  }

  /** "calculo a b AB1234" (two letters only) answers "NOK Placa no válida". */
  lemma ExampleShortPlate(client: string, counts: Counts, coinIsZero: bool)
    ensures Exchange("calculo a b AB1234", client, counts, coinIsZero) == ("NOK Placa no válida", counts)
  {
    ParseCalculoLine("calculo a b AB1234", "a", "b", "AB1234");
    ShortPlateRejected(client, counts, coinIsZero);
    InvalidPlateLine();
  }

  /** "ingreso root wrongpass" is denied whatever the coin. */
  lemma ExampleWrongPassword(client: string, counts: Counts, coinIsZero: bool)
    ensures Exchange("ingreso root wrongpass", client, counts, coinIsZero) == ("NOK ACCESO_NEGADO", counts)
  {
    var req := Request("INGRESO", ["root", "wrongpass"]);
    ParseIngresoLine("ingreso root wrongpass");
    IngresoOutcome(req, client, counts, coinIsZero);
    AccessDeniedLine();
  }

  /** "CONTADOR" from a client never seen answers "NOK No hay solicitudes
      previas". */
  lemma ExampleFreshContador(client: string, counts: Counts, coinIsZero: bool)
    requires client !in counts
    ensures Exchange("CONTADOR", client, counts, coinIsZero) == ("NOK No hay solicitudes previas", counts)
  {
    ParseContadorLine();
    ContadorOutcome(Request("CONTADOR", []), client, counts, coinIsZero);
    NoPreviousLine();
  }

  lemma CalculoMessageExample()
    ensures IsValidPlate("ABC1234") && CalculoMessage("ABC1234") == "ABC1234 16"
  {
    IsValidPlateIff("ABC1234");
    assert DayIndicator("ABC1234") == 16;
    assert NatToString(1) == "1";
    assert NatToString(16) == "16";
  }

  lemma PlateABC1234Accepted(client: string, counts: Counts, coinIsZero: bool)
    ensures Resolve(Request("CALCULO", ["x", "y", "ABC1234"]), client, counts, coinIsZero) ==
              (Response("OK", "ABC1234 16"), Bumped(counts, client))
  {
    CalculoMessageExample();
  }

  lemma OkABC1234Line()
    ensures ResponseToString(Response("OK", "ABC1234 16")) == "OK ABC1234 16"
  {
  }

  lemma ShortPlateRejected(client: string, counts: Counts, coinIsZero: bool)
    ensures Resolve(Request("CALCULO", ["a", "b", "AB1234"]), client, counts, coinIsZero) ==
              (Response("NOK", InvalidPlate), counts)
  {
    IsValidPlateIff("AB1234");
  }

  lemma InvalidPlateLine()
    ensures ResponseToString(Response("NOK", InvalidPlate)) == "NOK Placa no válida"
  {
  }

  lemma AccessDeniedLine()
    ensures ResponseToString(Response("NOK", AccessDenied)) == "NOK ACCESO_NEGADO"
  {
  }

  lemma NoPreviousLine()
    ensures ResponseToString(Response("NOK", NoPrevious)) == "NOK No hay solicitudes previas"
  {
  }

  /** A "calculo" line with three space-free parameters parses to CALCULO. */
  lemma ParseCalculoLine(line: string, w1: string, w2: string, w3: string)
    requires NoSpace(w1) && NoSpace(w2) && NoSpace(w3)
    requires line == "calculo " + w1 + " " + w2 + " " + w3
    ensures ParseRequest(line) == Request("CALCULO", [w1, w2, w3])
  {
    var parts := ["calculo", w1, w2, w3];
    JoinCons(w2, [w3]);
    assert [w2] + [w3] == [w2, w3];
    JoinCons(w1, [w2, w3]);
    assert [w1] + [w2, w3] == [w1, w2, w3];
    JoinCons("calculo", [w1, w2, w3]);
    assert ["calculo"] + [w1, w2, w3] == parts;
    assert Join(parts) == line;
    ParseRequestComplete("calculo", [w1, w2, w3]);
    ToUpperIs("calculo", "CALCULO");
  }

  lemma ParseIngresoLine(line: string)
    requires line == "ingreso root wrongpass"
    ensures ParseRequest(line) == Request("INGRESO", ["root", "wrongpass"])
  {
    JoinCons("root", ["wrongpass"]);
    JoinCons("ingreso", ["root", "wrongpass"]);
    assert Join(["ingreso", "root", "wrongpass"]) == line;
    ParseRequestComplete("ingreso", ["root", "wrongpass"]);
    ToUpperIs("ingreso", "INGRESO");
  }

  lemma ParseContadorLine()
    ensures ParseRequest("CONTADOR") == Request("CONTADOR", [])
  {
    SplitToken("CONTADOR");
    ToUpperIs("CONTADOR", "CONTADOR");
  }

  /** A caller of the object model: three valid CALCULO requests from the
      client 10.0.0.5:9000 on a fresh table, then CONTADOR, answer OK 3. */
  method ThreeCalculosThenContador() returns (resp: Response)
    ensures resp == Response("OK", "3")
  {
    var table := new ClientCounters();
    var client := "10.0.0.5:9000";
    var req := Request("CALCULO", ["x", "y", "ABC1234"]);
    assert IsSuccessfulCalculo(req) by { IsValidPlateIff("ABC1234"); }
    ResolveFrame(req, client, map[], false);
    var r1 := ResolverPedido(req, client, table, false);
    assert table.counts == map[client := 1];
    ResolveFrame(req, client, map[client := 1], false);
    var r2 := ResolverPedido(req, client, table, false);
    assert table.counts == map[client := 2];
    ResolveFrame(req, client, map[client := 2], false);
    var r3 := ResolverPedido(req, client, table, false);
    assert table.counts == map[client := 3];
    resp := ResolverPedido(Request("CONTADOR", []), client, table, true);
    assert NatToString(3) == "3";
  }
}
