/** The controller's command lines and their acknowledgements.

    A command is one ASCII line: the command letter, then each argument as
    `,` followed by its signed decimal text, then a newline (`D,50,-50\n`).
    The controller answers every command with one line; a setter reports the
    outcome as `ack.compare("<letter in lower case>")` converted to `bool`,
    so `true` means the reply did NOT match. */
module Protocol {
  import opened Wrappers
  import opened Decimal

  // ---------------------------------------------------------------------
  // Encoding
  // ---------------------------------------------------------------------

  /** `,<a1>,<a2>,...,<an>` */
  function EncodeArgs(args: seq<int>): string
  {
    if args == [] then "" else "," + FormatInt(args[0]) + EncodeArgs(args[1..])
  }

  /** The line a setter hands to `sprintf`: letter, arguments in order, newline. */
  function EncodeLine(letter: char, args: seq<int>): (line: string)
    ensures |line| >= 2 && line[0] == letter && line[|line| - 1] == '\n'
  {
    [letter] + EncodeArgs(args) + "\n"
  }

  // ---------------------------------------------------------------------
  // Decoding: the partner of EncodeLine, as the controller reads a line
  // ---------------------------------------------------------------------

  datatype Command = Command(letter: char, args: seq<int>)

  /** Strict reading of one `%d` field: an optional minus sign and at least one digit. */
  function ParseInt(s: string): Option<int>
  {
    if |s| > 0 && s[0] == '-' then
      if |s| > 1 && AllDigits(s[1..]) then Some(-(DigitsValue(s[1..]) as int)) else None
    else if |s| > 0 && AllDigits(s) then Some(DigitsValue(s) as int)
    else None
  }

  /** Index of the first comma of `s`, or `|s|` when there is none. */
  function FieldEnd(s: string): (k: nat)
    ensures k <= |s|
    ensures k < |s| ==> s[k] == ','
    ensures forall i :: 0 <= i < k ==> s[i] != ','
  {
    if s == [] || s[0] == ',' then 0 else 1 + FieldEnd(s[1..])
  }

  /** Reads `,<a1>,...,<an>` back into the argument list. */
  function DecodeArgs(s: string): Option<seq<int>>
    decreases |s|
  {
    if s == [] then Some([])
    else if s[0] != ',' then None
    else
      var body := s[1..];
      var k := FieldEnd(body);
      match ParseInt(body[..k])
      case None => None
      case Some(v) =>
        match DecodeArgs(body[k..])
        case None => None
        case Some(vs) => Some([v] + vs)
  }

  function DecodeLine(line: string): Option<Command>
  {
    if |line| < 2 || line[|line| - 1] != '\n' then None
    else
      match DecodeArgs(line[1..|line| - 1])
      case None => None
      case Some(args) => Some(Command(line[0], args))
  }

  // ---------------------------------------------------------------------
  // Acknowledgement check
  // ---------------------------------------------------------------------

  /** `std::string::compare`: lexicographic by character, a proper prefix
      comes first. The library promises only the sign of the result; the
      model normalises it to -1, 0 or 1. */
  function Compare(a: string, b: string): int
  {
    if a == [] && b == [] then 0
    else if a == [] then -1
    else if b == [] then 1
    else if a[0] < b[0] then -1
    else if a[0] > b[0] then 1
    else Compare(a[1..], b[1..])
  }

  /** `return(ack.compare(token))` from a function returning `bool`:
      true exactly when the reply differs from the expected token. */
  function AckMismatch(reply: string, token: string): (mismatch: bool)
    ensures mismatch <==> reply != token
  {
    CompareZeroIff(reply, token);
    Compare(reply, token) != 0
  }

  // ---------------------------------------------------------------------
  // Lemmas
  // ---------------------------------------------------------------------

  lemma {:induction false} CompareZeroIff(a: string, b: string)
    ensures Compare(a, b) == 0 <==> a == b
  {
    if a != [] && b != [] && a[0] == b[0] {
      CompareZeroIff(a[1..], b[1..]);
      if a[1..] == b[1..] {
        assert a == [a[0]] + a[1..] && b == [b[0]] + b[1..];
      }
    }
  }

  /** `std::string::compare` is antisymmetric: `a` sorts before `b` exactly
      when `b` sorts after `a` (a statement about signs only, which is what
      the library promises). */
  lemma {:induction false} CompareAntisymmetric(a: string, b: string)
    ensures Compare(a, b) < 0 <==> Compare(b, a) > 0
    ensures Compare(a, b) == 0 <==> Compare(b, a) == 0
  {
    if a != [] && b != [] && a[0] == b[0] {
      CompareAntisymmetric(a[1..], b[1..]);
    }
  }

  lemma FormatIntHasNoComma(n: int)
    ensures forall i :: 0 <= i < |FormatInt(n)| ==> FormatInt(n)[i] != ','
  {
    var m: nat := if n < 0 then -n else n;
    assert AllDigits(NatToDigits(m));
  }

  lemma ParseFormatInt(n: int)
    ensures ParseInt(FormatInt(n)) == Some(n)
  {
    var m: nat := if n < 0 then -n else n;
    var d := NatToDigits(m);
    DigitsValueOfNatToDigits(m);
    if n < 0 {
      var s := FormatInt(n);
      assert s == ['-'] + d && s[1..] == d;
    } else {
      assert IsDigit(d[0]);
    }
  }

  lemma {:induction false} DecodeEncodeArgs(args: seq<int>)
    ensures DecodeArgs(EncodeArgs(args)) == Some(args)
  {
    if args != [] {
      var f := FormatInt(args[0]);
      var tail := EncodeArgs(args[1..]);
      assert EncodeArgs(args) == [','] + (f + tail);
      FormatIntHasNoComma(args[0]);
      ParseFormatInt(args[0]);
      DecodeOneField(f, tail, args[0]);
      DecodeEncodeArgs(args[1..]);
      assert [args[0]] + args[1..] == args;
    }
  }

  /** One `,<field>` in front of the rest of the arguments decodes to its value
      followed by what the rest decodes to. */
  lemma DecodeOneField(f: string, tail: string, v: int)
    requires forall i :: 0 <= i < |f| ==> f[i] != ','
    requires tail == [] || tail[0] == ','
    requires ParseInt(f) == Some(v)
    ensures DecodeArgs([','] + (f + tail)) ==
              match DecodeArgs(tail)
              case None => None
              case Some(vs) => Some([v] + vs)
  {
    var s := [','] + (f + tail);
    var body := s[1..];
    assert body == f + tail;
    FieldEndOfField(f, tail);
    assert body[..|f|] == f && body[|f|..] == tail;
  }

  lemma {:induction false} FieldEndOfField(f: string, tail: string)
    requires forall i :: 0 <= i < |f| ==> f[i] != ','
    requires tail == [] || tail[0] == ','
    ensures FieldEnd(f + tail) == |f|
  {
    if f != [] {
      assert (f + tail)[1..] == f[1..] + tail;
      FieldEndOfField(f[1..], tail);
    }
  }

  /** Decoding recovers the letter and every argument of an encoded command. */
  lemma DecodeEncodeLine(letter: char, args: seq<int>)
    ensures DecodeLine(EncodeLine(letter, args)) == Some(Command(letter, args))
  {
    var line := EncodeLine(letter, args);
    assert line[1..|line| - 1] == EncodeArgs(args);
    DecodeEncodeArgs(args);
  }

  /** Distinct commands never produce the same line. */
  lemma EncodeLineInjective(l1: char, a1: seq<int>, l2: char, a2: seq<int>)
    requires EncodeLine(l1, a1) == EncodeLine(l2, a2)
    ensures l1 == l2 && a1 == a2
  {
    DecodeEncodeLine(l1, a1);
    DecodeEncodeLine(l2, a2);
  }

  /** The speed command for (50, -50) is exactly `D,50,-50\n`, and the reply `d` matches it. */
  lemma SetSpeedExample()
    ensures EncodeLine('D', [50, -50]) == "D,50,-50\n"
    ensures !AckMismatch("d", "d") && AckMismatch("d\n", "d")
  {
    assert NatToDigits(5) == "5";
    assert NatToDigits(50) == "50";
    assert FormatInt(-50) == "-50";
    assert EncodeArgs([50, -50]) == ",50" + EncodeArgs([-50]);
  }
}
