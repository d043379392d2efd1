/** The wire codec of the protocol: a request line is a command followed by
    space-separated parameters (class Pedido), a response line is a status
    followed by a free-text message (class Respuesta). */
module Codec {
  import opened Text

  /** A decoded request (Pedido): the command and its parameters in order. */
  datatype Request = Request(command: string, parameters: seq<string>)

  /** A response (Respuesta): a status word ("OK" / "NOK" when produced by the
      dispatcher) and a message that may contain spaces. */
  datatype Response = Response(status: string, message: string)

  /** Pedido.Procesar: the first space-separated token, upper-cased, is the
      command; the remaining tokens, in order, are the parameters. Never fails,
      the empty line included. */
  function ParseRequest(line: string): (r: Request)
    ensures NoSpace(r.command)
    ensures forall i :: 0 <= i < |r.parameters| ==> NoSpace(r.parameters[i])
    ensures |r.parameters| == Spaces(line)
    ensures forall i :: 0 <= i < |r.command| ==> !('a' <= r.command[i] <= 'z')
  {
    var parts := Split(line);
    ToUpperProps(parts[0]);
    Request(ToUpper(parts[0]), parts[1..])
  }

  /** Pedido.ToString: "<command> <parameters joined by spaces>". With no
      parameters the line ends in a space. */
  function RequestToString(r: Request): string {
    r.command + " " + Join(r.parameters)
  }

  /** Respuesta.ToString: "<status> <message>". */
  function ResponseToString(r: Response): string {
    r.status + " " + r.message
  }

  /** Protocolo.ProcesarRespuesta: the first token is the status, every later
      token, re-joined with single spaces, is the message. */
  function ParseResponse(line: string): (r: Response)
    ensures NoSpace(r.status)
  {
    var parts := Split(line);
    Response(parts[0], Join(parts[1..]))
  }

  /** A line without a space is all status and an empty message. */
  lemma ParseResponseSingleToken(line: string)
    requires NoSpace(line)
    ensures ParseResponse(line) == Response(line, "")
  {
    SplitToken(line);
  }

  /** Parsing the empty line gives an empty command and no parameters. */
  lemma ParseEmptyLine()
    ensures ParseRequest("") == Request("", [])
  {
  }

  /** Soundness of ParseRequest: the line is the join of a raw first token,
      whose upper case is the command, and of the parameters. */
  lemma ParseRequestSound(line: string)
    ensures exists first :: NoSpace(first) && ToUpper(first) == ParseRequest(line).command
                            && Join([first] + ParseRequest(line).parameters) == line
  {
    var parts := Split(line);
    JoinSplit(line);
    assert [parts[0]] + parts[1..] == parts;
  }

  /** Completeness of ParseRequest: a line made of space-free tokens parses
      to the upper-cased first token and the remaining tokens. */
  lemma ParseRequestComplete(first: string, params: seq<string>)
    requires NoSpace(first)
    requires forall i :: 0 <= i < |params| ==> NoSpace(params[i])
    ensures ParseRequest(Join([first] + params)) == Request(ToUpper(first), params)
  {
    var parts := [first] + params;
    SplitJoin(parts);
    assert parts[1..] == params;
  }

  /** Request round trip: encoding and parsing again gives the upper-cased
      command and the same parameters, when there is at least one parameter
      and no token contains a space. */
  lemma RequestRoundTrip(r: Request)
    requires |r.parameters| > 0
    requires NoSpace(r.command)
    requires forall i :: 0 <= i < |r.parameters| ==> NoSpace(r.parameters[i])
    ensures ParseRequest(RequestToString(r)) == Request(ToUpper(r.command), r.parameters)
  {
    JoinCons(r.command, r.parameters);
    ParseRequestComplete(r.command, r.parameters);
  }

  /** Without parameters the round trip fails: the trailing space of
      RequestToString comes back as one empty parameter. */
  lemma RequestRoundTripNoParameters(command: string)
    requires NoSpace(command)
    ensures ParseRequest(RequestToString(Request(command, []))) == Request(ToUpper(command), [""])
  {
    SplitTokenSpace(command, "");
    assert command + " " + "" == command + " ";
  }

  /** Response round trip: any message survives, spaces included, provided
      the status is a single token. */
  lemma ResponseRoundTrip(r: Response)
    requires NoSpace(r.status)
    ensures ParseResponse(ResponseToString(r)) == r
  {
    SplitTokenSpace(r.status, r.message);
    JoinSplit(r.message);
    assert ([r.status] + Split(r.message))[1..] == Split(r.message);
  }

  /** The other direction: a line with at least one space is reproduced by
      parsing and encoding it again. */
  lemma ResponseLineRoundTrip(line: string)
    requires !NoSpace(line)
    ensures ResponseToString(ParseResponse(line)) == line
  {
    var parts := Split(line);
    assert Spaces(line) > 0 by { SpacesPositive(line); }
    JoinSplit(line);
    JoinCons(parts[0], parts[1..]);
    assert [parts[0]] + parts[1..] == parts;
  }

  /** A string containing a space has a positive space count. */
  lemma {:induction false} SpacesPositive(s: string)
    requires !NoSpace(s)
    ensures Spaces(s) > 0
    decreases |s|
  {
    if s[0] != ' ' {
      assert !NoSpace(s[1..]) by {
        var i :| 0 <= i < |s| && s[i] == ' ';
        assert s[1..][i - 1] == ' ';
      }
      SpacesPositive(s[1..]);
    }
  }
}
