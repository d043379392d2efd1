# Pico y placa protocol: a Dafny model

This project models the text protocol of a small client/server service.
The service answers one question: on which weekday a vehicle plate is
restricted ("pico y placa"). It also has a demo login and a per-client
request counter. Everything modelled lives in `Protocolo.cs`, in two parts.

- **Wire codec** (`Pedido`, `Respuesta`, `ProcesarRespuesta`), in modules
  `Text` and `Codec`.
  - A request line is split on single spaces. The upper-cased first token
    is the command and the other tokens are the parameters.
  - A response is written as `"<status> <message>"`.
  - Parsing a response line takes its first token as the status and
    re-joins the remaining tokens with single spaces as the message.
- **Command dispatcher** (`ResolverPedido` and its helpers), in modules
  `Plate` and `Dispatcher`.
  - `INGRESO` is the login demo. The correct credentials succeed on a coin
    flip.
  - `CALCULO x y <plate>` validates the plate, answers with its weekday
    bit mask and counts the request for the caller.
  - `CONTADOR` reports the caller's count.
  - Anything else is not recognised.
- **Shared counter map.** The counters are a `ClientCounters` object whose
  `map<string, nat>` field is updated in place. The method `ContadorCliente`
  is proved against the pure function `Bumped`, and the method
  `ResolverPedido` against the pure function `Resolve`. The protocol's
  promises are lemmas about `Bumped` and `Resolve`.
- **Scenarios.** Module `Scenarios` composes decode, dispatch and encode
  into whole exchanges, for example request lines.

Modelling choices:
- `new Random().Next(2)` becomes the parameter `coinIsZero`, so both
  outcomes of the login can be stated.
- `ToUpper` is ASCII upper case.
- Plate validation is an anchored match of `[A-Z]{3}[0-9]{4}` written as one
  character class per position.
- The indicator is a `byte` newtype, and `int.Parse` of the last character is
  its digit value.

Three behaviours of the code worth noting:
- `Respuesta.ToString` and `Pedido.ToString` always put a space after the
  head. So a request without parameters ends in a space.
- The status is an arbitrary string, not an OK/NOK enumeration. The
  dispatcher only ever produces "OK" or "NOK" (`ResolveStatus`).
- `CALCULO` with a parameter count other than three keeps the default
  `NOK Comando no reconocido`. It does not answer with a plate error.

## Model

| member | source | states |
|---|---|---|
| Text.Split | Protocolo.cs:27 | Splitting on ' ' yields one more piece than there are spaces, and no piece contains a space |
| Text.JoinSplit | Protocolo.cs:172-176 | Re-joining the pieces of any string with single spaces gives the string back |
| Text.SplitJoin | Protocolo.cs:27 | A non-empty list of space-free tokens, joined and split again, is the same list |
| Text.Join | Protocolo.cs:37 | Joins the pieces with one space between neighbours, as `string.Join(" ", ...)` does; its partner lemmas JoinSplit and SplitJoin relate it to Split |
| Text.ToUpper | Protocolo.cs:30 | Upper-cases every ASCII letter 'a'..'z' and keeps every other character; its properties are stated by ToUpperProps |
| Text.ToUpperProps | Protocolo.cs:30 | ASCII upper case is idempotent, has a space at exactly the positions where the input has one, and leaves no lower-case ASCII letter ('a'..'z'); other lower-case letters, such as 'é', are kept |
| Text.NatToString | Protocolo.cs:102 | The decimal rendering of a number is non-empty, all digits, has no leading zero, and is "0" only for 0 |
| Text.ParseNatToString | Protocolo.cs:116 | Reading the decimal rendering back gives the number |
| Text.NatToStringInjective | Protocolo.cs:116 | Different counts render as different strings |
| Codec.ParseRequest | Protocolo.cs:25-33 | The command and the parameters contain no space, the command has no lower-case ASCII letter ('a'..'z'), and there is one parameter per space in the line |
| Codec.ParseEmptyLine | Protocolo.cs:25-33 | The empty line gives an empty command and no parameters, without failing |
| Codec.ParseRequestSound | Protocolo.cs:25-33 | The line is the join of a space-free first token, whose upper case is the command, and of the parameters in order |
| Codec.ParseRequestComplete | Protocolo.cs:25-33 | A line of space-free tokens parses to the upper-cased first token and exactly the remaining tokens |
| Codec.RequestToString | Protocolo.cs:35-38 | Writes the command, one space, then the parameters joined by single spaces; its partner lemmas RequestRoundTrip and RequestRoundTripNoParameters relate it to ParseRequest |
| Codec.RequestRoundTrip | Protocolo.cs:35-38 | Parsing the encoded request gives the upper-cased command and the same parameters, when there is at least one parameter and no token has a space |
| Codec.RequestRoundTripNoParameters | Protocolo.cs:37 | Without parameters the encoded request parses back with one empty parameter |
| Codec.ParseResponse | Protocolo.cs:170-178 | The parsed status contains no space |
| Codec.ParseResponseSingleToken | Protocolo.cs:170-178 | A line without a space is all status, with an empty message |
| Codec.ResponseToString | Protocolo.cs:46-49 | Writes the status, one space, then the message; its partner lemmas ResponseRoundTrip and ResponseLineRoundTrip relate it to ParseResponse |
| Codec.ResponseRoundTrip | Protocolo.cs:46-49 | Parsing the encoded response reproduces status and message exactly when the status has no space; the message may contain spaces |
| Codec.ResponseLineRoundTrip | Protocolo.cs:170-178 | Any line containing a space is reproduced by parsing and re-encoding it |
| Plate.MatchesAnchoredIff | Protocolo.cs:130 | The anchored class matcher accepts exactly the strings of the pattern's length whose characters lie in the class at their position |
| Plate.IsValidPlate | Protocolo.cs:128-131 | Matches the plate anchored against the classes [A-Z]{3}[0-9]{4}; IsValidPlateIff characterizes it |
| Plate.IsValidPlateIff | Protocolo.cs:128-131 | A plate is valid if and only if it has 7 characters, 'A'..'Z' at positions 0-2 and '0'..'9' at positions 3-6 |
| Plate.DayIndicator | Protocolo.cs:133-135 | Reads the character at index 6 as a digit and looks up its weekday mask with IndicatorOfDigit; DayIndicatorOneBit states its value |
| Plate.IndicatorOfDigit | Protocolo.cs:136-155 | The switch: 1,2 to 0b00100000; 3,4 to 0b00010000; 5,6 to 0b00001000; 7,8 to 0b00000100; 9,0 to 0b00000010; any other number to 0; IndicatorOfDigitPow2 gives its closed form |
| Plate.IndicatorOfDigitPow2 | Protocolo.cs:136-155 | The switch on the last digit agrees with the closed form 2 to the power RestrictedBit(d), a bit position between 1 and 5 |
| Plate.DayIndicatorOneBit | Protocolo.cs:133-156 | For every valid plate the indicator is 2 to the power 5 - ((d+9) mod 10)/2 of its last digit d (1,2 to 32; 3,4 to 16; 5,6 to 8; 7,8 to 4; 9,0 to 2): never 0, exactly one bit set, among bits 1 to 5 |
| Dispatcher.Bumped | Protocolo.cs:158-168 | After increment-or-insert the keys are the old keys plus the caller, the caller's count is the old count + 1 or 1, and every other entry is unchanged |
| Dispatcher.BumpedPositive | Protocolo.cs:158-168 | Increment-or-insert keeps every count at least 1 and always changes the table |
| Dispatcher.ContadorCliente | Protocolo.cs:158-168 | Updates the shared table in place to the increment-or-insert of the caller, keeping every count at least 1 |
| Dispatcher.Resolve | Protocolo.cs:73-126 | The response and the new table of one call, branch by branch from the default NOK "Comando no reconocido"; the lemmas below state its promises |
| Dispatcher.ResolverPedido | Protocolo.cs:73-126 | Returns the response and leaves the shared table exactly as Resolve prescribes; a successful CALCULO makes one ContadorCliente update |
| Dispatcher.CalculoAccepted | Protocolo.cs:95-104 | CALCULO with three parameters and a valid plate answers OK, its message split into exactly the plate and the decimal weekday bit, and records one request of the caller |
| Dispatcher.CalculoRejectsPlate | Protocolo.cs:105-108 | CALCULO with three parameters and an invalid plate answers NOK "Placa no válida" and leaves the table unchanged |
| Dispatcher.CalculoWrongArity | Protocolo.cs:95-110 | CALCULO with any other parameter count answers the default NOK "Comando no reconocido" and leaves the table unchanged |
| Dispatcher.IngresoOutcome | Protocolo.cs:80-93 | INGRESO never changes the table; it answers OK "ACCESO_CONCEDIDO" exactly for root / admin20 with the coin at zero, otherwise NOK "ACCESO_NEGADO" |
| Dispatcher.ContadorOutcome | Protocolo.cs:112-122 | CONTADOR never changes the table; a known caller gets OK and its count in canonical decimal (non-empty digits, no leading zero, reading back as the count, never "0" while every count is at least 1), an unknown one NOK "No hay solicitudes previas" |
| Dispatcher.ContadorDistinguishesCounts | Protocolo.cs:112-117 | For a known caller, two tables give the same CONTADOR answer if and only if they record the same count for it |
| Dispatcher.UnknownCommand | Protocolo.cs:75-78 | Any other command, the empty one included, answers NOK "Comando no reconocido" and leaves the table unchanged |
| Dispatcher.ResolveFrame | Protocolo.cs:73-126 | The table changes if and only if the request is a successful CALCULO, then by one increment-or-insert of the caller, and every count stays at least 1 |
| Dispatcher.ResolveStatus | Protocolo.cs:73-126 | Every status is OK or NOK, and it is OK exactly for a successful CALCULO, a CONTADOR of a known caller, or the correct login with the coin at zero |
| Dispatcher.ResolveWireRoundTrip | Protocolo.cs:46-49 | Every response the dispatcher produces is reproduced by encoding it and parsing the line again |
| Dispatcher.AfterRequestsCount | Protocolo.cs:95-103 | After any run of requests from one caller, whatever the coins and whatever the first two CALCULO parameters, its count grew by the number of successful CALCULO requests, and no other client's entry changed |
| Dispatcher.RunThenContador | Protocolo.cs:112-121 | A new client that sends any run of requests and then CONTADOR gets OK and the number of successful CALCULO requests in it, or NOK "No hay solicitudes previas" when there were none |
| Dispatcher.CountThenContador | Protocolo.cs:112-121 | A new client that sends n CALCULO requests with three parameters and a valid plate, whatever the first two, and then CONTADOR gets OK "n", or NOK "No hay solicitudes previas" when n is 0 |
| Dispatcher.AllSuccessfulCount | Protocolo.cs:96-99 | When every request of the run is a CALCULO with three parameters and a valid plate, every one of them counts |
| Dispatcher.Int32Increment | Protocolo.cs:162 | The C# unchecked int increment is two's-complement arithmetic: x + 1 reduced modulo 2^32 into [Int32.MinValue, Int32.MaxValue] |
| Dispatcher.BumpedAsWritten | Protocolo.cs:158-168 | ContadorCliente as written over 32-bit counts: the caller's count goes through Int32Increment, a new caller is recorded at 1 |
| Dispatcher.CounterWrapsAsWritten | Protocolo.cs:162 | As written, a count at Int32.MaxValue becomes Int32.MinValue, below 1, on the next valid CALCULO |
| Dispatcher.BumpedAsWrittenAgrees | Protocolo.cs:160-167 | Below the wrap-around the 32-bit counter update equals the unbounded one |
| Scenarios.ExampleCalculo | Protocolo.cs:95-104 | The line "calculo x y ABC1234" answers "OK ABC1234 16" and records the call |
| Scenarios.ExampleShortPlate | Protocolo.cs:105-108 | The line "calculo a b AB1234" answers "NOK Placa no válida" and records nothing |
| Scenarios.ExampleWrongPassword | Protocolo.cs:89-92 | The line "ingreso root wrongpass" answers "NOK ACCESO_NEGADO" whatever the coin |
| Scenarios.ExampleFreshContador | Protocolo.cs:118-121 | "CONTADOR" from an unknown client answers "NOK No hay solicitudes previas" |
| Scenarios.ThreeCalculosThenContador | Protocolo.cs:112-117 | On a fresh table, three valid CALCULO requests from one client followed by CONTADOR answer OK "3" |

## Left out

- `HazOperacion` (Protocolo.cs:54-71) is left out. It is network I/O: the stream write and read, the 1024-byte receive buffer, UTF-8 encoding and the wrapping of `SocketException`.
- `System.Random` (Protocolo.cs:85) is a foreign call. It is replaced by the parameter `coinIsZero`. The model says nothing about the 50/50 distribution.
- Codec.ParseRequest: `ToUpper` is culture-sensitive in .NET. The model upper-cases ASCII 'a'..'z' only.
- Plate.IsValidPlate: the model takes the strict 7-character reading of `^[A-Z]{3}[0-9]{4}$`. .NET's `$` also matches just before a final '\n', so the source also accepts "ABC1234\n". The model rejects it.
- Plate.DayIndicator: `int.Parse` is modelled as the digit value of the character at index 6. The function requires that character to be a decimal digit and the plate to have at least 7 characters. Otherwise the source throws, and only valid plates reach it. The source's `default: return 0` cannot be reached then.
- The counter map is a `Dictionary<string,int>` that the caller passes to `ResolverPedido` and that `ContadorCliente` mutates in place. The code that creates it and any sharing between connections are not part of this model, which treats it as single-threaded state.
- Dispatcher.Bumped: counts are unbounded naturals, not 32-bit `int`s. The wrap-around the source has is modelled separately and reported under Findings.
- C# strings are UTF-16 code units, and Dafny strings here are sequences of Unicode characters. Only the space character U+0020 separates tokens, as `Split(' ')` does. `null` strings or arrays are not modelled.

## Findings

| source | as written | input that shows it | evidently intended | confidence | as-written member | corrected member |
|---|---|---|---|---|---|---|
| Protocolo.cs:162 | `listadoClientes[direccionCliente]++` increments a C# `int`, which wraps to Int32.MinValue in the default unchecked context | a client whose count is 2147483647 sends one more valid CALCULO; its count becomes -2147483648 and CONTADOR then reports a negative count | the count grows by one and stays at least 1 | not executed; medium (assumes the project is built without checked arithmetic) | Dispatcher.CounterWrapsAsWritten | Dispatcher.BumpedPositive |
