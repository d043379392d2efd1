/** String helpers the protocol is built from: splitting on a single space
    (as .NET String.Split(' ') does), joining with a single space
    (string.Join(" ", ...)), ASCII upper-casing and decimal rendering of
    naturals. Each operation is related to its partner by round-trip lemmas. */
module Text {

  /** A token of the protocol: a string with no space in it. */
  predicate NoSpace(s: string) {
    ' ' !in s
  }

  /** Number of space characters in `s`. */
  function Spaces(s: string): nat {
    if |s| == 0 then 0 else (if s[0] == ' ' then 1 else 0) + Spaces(s[1..])
  }

  /** Splits `s` at every single space. Like String.Split(' '), it never
      returns an empty sequence, keeps empty pieces between adjacent spaces
      and yields [""] for the empty string. */
  function Split(s: string): (r: seq<string>)
    ensures |r| == Spaces(s) + 1
    ensures forall i :: 0 <= i < |r| ==> NoSpace(r[i])
    decreases |s|
  {
    if |s| == 0 then [""]
    else if s[0] == ' ' then [""] + Split(s[1..])
    else
      var t := Split(s[1..]);
      [[s[0]] + t[0]] + t[1..]
  }

  /** Joins the pieces with one space between neighbours. */
  function Join(parts: seq<string>): string
    decreases |parts|
  {
    if |parts| == 0 then ""
    else if |parts| == 1 then parts[0]
    else parts[0] + " " + Join(parts[1..])
  }

  /** Prepending a character to the first piece prepends it to the join. */
  lemma JoinExtendFirst(c: char, t: seq<string>)
    requires |t| >= 1
    ensures Join([[c] + t[0]] + t[1..]) == [c] + Join(t)
  {
  }

  /** Splitting and re-joining gives the string back, for every string. */
  lemma {:induction false} JoinSplit(s: string)
    ensures Join(Split(s)) == s
    decreases |s|
  {
    if |s| == 0 {
    } else if s[0] == ' ' {
      var t := Split(s[1..]);
      JoinSplit(s[1..]);
      assert ([""] + t)[1..] == t;
      assert Join([""] + t) == "" + " " + Join(t);
      assert s == " " + s[1..];
    } else {
      var t := Split(s[1..]);
      JoinSplit(s[1..]);
      JoinExtendFirst(s[0], t);
      assert s == [s[0]] + s[1..];
    }
  }

  /** A single token splits to itself. */
  lemma {:induction false} SplitToken(w: string)
    requires NoSpace(w)
    ensures Split(w) == [w]
    decreases |w|
  {
    if |w| > 0 {
      assert NoSpace(w[1..]) by { assert forall i :: 0 <= i < |w| - 1 ==> w[1..][i] == w[i + 1]; }
      SplitToken(w[1..]);
      assert [w[0]] + w[1..] == w;
    }
  }

  /** A token followed by a space splits off as the first piece. */
  lemma {:induction false} SplitTokenSpace(w: string, rest: string)
    requires NoSpace(w)
    ensures Split(w + " " + rest) == [w] + Split(rest)
    decreases |w|
  {
    var s := w + " " + rest;
    if |w| == 0 {
      assert s[0] == ' ' && s[1..] == rest;
    } else {
      assert NoSpace(w[1..]) by { assert forall i :: 0 <= i < |w| - 1 ==> w[1..][i] == w[i + 1]; }
      assert s[0] == w[0] != ' ';
      assert s[1..] == w[1..] + " " + rest;
      SplitTokenSpace(w[1..], rest);
      assert [w[0]] + w[1..] == w;
    }
  }

  /** Joining tokens and splitting again gives the tokens back. Needs at
      least one piece, since Split never returns []. */
  lemma {:induction false} SplitJoin(parts: seq<string>)
    requires |parts| >= 1
    requires forall i :: 0 <= i < |parts| ==> NoSpace(parts[i])
    ensures Split(Join(parts)) == parts
    decreases |parts|
  {
    if |parts| == 1 {
      SplitToken(parts[0]);
    } else {
      SplitJoin(parts[1..]);
      SplitTokenSpace(parts[0], Join(parts[1..]));
      assert [parts[0]] + parts[1..] == parts;
    }
  }

  /** Joining a head token before a non-empty tail puts one space between. */
  lemma JoinCons(head: string, tail: seq<string>)
    requires |tail| >= 1
    ensures Join([head] + tail) == head + " " + Join(tail)
  {
    assert ([head] + tail)[1..] == tail;
  }

  /** ASCII upper case of one character; every other character is kept. */
  function UpperChar(c: char): char {
    if 'a' <= c <= 'z' then (c as int - 'a' as int + 'A' as int) as char else c
  }

  /** ASCII upper case of a string, character by character. */
  function ToUpper(s: string): string {
    seq(|s|, i requires 0 <= i < |s| => UpperChar(s[i]))
  }

  /** Upper-casing is idempotent, keeps every space where it is and adds
      none, and leaves no lower-case ASCII letter ('a'..'z') behind. */
  lemma ToUpperProps(s: string)
    ensures ToUpper(ToUpper(s)) == ToUpper(s)
    ensures forall i :: 0 <= i < |s| ==> (ToUpper(s)[i] == ' ' <==> s[i] == ' ')
    ensures NoSpace(ToUpper(s)) <==> NoSpace(s)
    ensures forall i :: 0 <= i < |s| ==> !('a' <= ToUpper(s)[i] <= 'z')
  {
  }

  /** The upper case of a string is whatever agrees with it character by
      character under UpperChar. */
  lemma ToUpperIs(s: string, t: string)
    requires |s| == |t|
    requires forall i :: 0 <= i < |s| ==> UpperChar(s[i]) == t[i]
    ensures ToUpper(s) == t
  {
  }

  /** The decimal digit character for 0 <= d < 10. */
  function DigitChar(d: nat): char
    requires d < 10
  {
    ('0' as int + d) as char
  }

  predicate IsDigit(c: char) {
    '0' <= c <= '9'
  }

  /** Value of a digit character. */
  function DigitValue(c: char): nat
    requires IsDigit(c)
  {
    c as int - '0' as int
  }

  /** Decimal rendering of a natural, as Int32.ToString / Byte.ToString give it
      for non-negative values: no sign, no leading zeros. */
  function NatToString(n: nat): (r: string)
    ensures |r| >= 1
    ensures forall i :: 0 <= i < |r| ==> IsDigit(r[i])
    ensures |r| > 1 ==> r[0] != '0'
    ensures n == 0 <==> r == "0"
    decreases n
  {
    if n < 10 then [DigitChar(n)] else NatToString(n / 10) + [DigitChar(n % 10)]
  }

  /** Value of a string of decimal digits, most significant first. */
  function ParseNat(s: string): nat
    requires forall i :: 0 <= i < |s| ==> IsDigit(s[i])
    decreases |s|
  {
    if |s| == 0 then 0 else 10 * ParseNat(s[..|s| - 1]) + DigitValue(s[|s| - 1])
  }

  /** Reading back the decimal rendering gives the number. */
  lemma {:induction false} ParseNatToString(n: nat)
    ensures ParseNat(NatToString(n)) == n
    decreases n
  {
    if n >= 10 {
      var r := NatToString(n);
      var h := NatToString(n / 10);
      assert r == h + [DigitChar(n % 10)];
      assert r[..|r| - 1] == h;
      ParseNatToString(n / 10);
    }
  }

  /** Different numbers render differently. */
  lemma NatToStringInjective(m: nat, n: nat)
    requires NatToString(m) == NatToString(n)
    ensures m == n
  {
    ParseNatToString(m);
    ParseNatToString(n);
  }
}
