/** The GPS simulator's command line: `--port <n>` and `--deviceId <id>`, flag names matched without
    regard to case, with the defaults `GPS-0001` and 5001. Parsing never fails: a bad port keeps the
    previous one, and a dangling flag or an unknown argument is skipped. */
module CommandLine {
  import opened Common

  const MinInt32: int := -0x8000_0000
  const MaxInt32: int := 0x7FFF_FFFF

  /** The white space `int.TryParse` skips around a number: U+0009..U+000D and the space. */
  predicate IsNumberWhite(c: char) {
    c == ' ' || ('\t' <= c <= '\r')
  }

  function TrimStart(s: string): (t: string)
    ensures |t| <= |s|
  {
    if s != [] && IsNumberWhite(s[0]) then TrimStart(s[1..]) else s
  }

  function TrimEnd(s: string): (t: string)
    ensures |t| <= |s|
  {
    if s != [] && IsNumberWhite(s[|s| - 1]) then TrimEnd(s[..|s| - 1]) else s
  }

  predicate AllDigits(s: string) {
    forall i :: 0 <= i < |s| ==> '0' <= s[i] <= '9'
  }

  /** The value of a string of decimal digits. */
  function DecimalValue(s: string): nat
    requires AllDigits(s)
  {
    if s == [] then 0 else DecimalValue(s[..|s| - 1]) * 10 + (s[|s| - 1] as int - '0' as int)
  }

  /** `int.TryParse(s, out value)` with the integer number style: optional white space, an optional
      sign, one or more decimal digits, optional white space, and a value within 32 bits. */
  function TryParseInt32(s: string): (r: Option<int>)
    ensures r.Some? ==> MinInt32 <= r.value <= MaxInt32
  {
    var t := TrimEnd(TrimStart(s));
    var signed := |t| > 0 && (t[0] == '-' || t[0] == '+');
    var body := if signed then t[1..] else t;
    if body == [] || !AllDigits(body) then None
    else
      var magnitude: int := DecimalValue(body);
      var v := if signed && t[0] == '-' then -magnitude else magnitude;
      if MinInt32 <= v <= MaxInt32 then Some(v) else None
  }

  /** Reading back the digits of a number gives the number. */
  lemma {:induction false} DecimalValueOfDigits(n: nat)
    ensures AllDigits(Digits(n)) && DecimalValue(Digits(n)) == n
  {
    if n >= 10 {
      DecimalValueOfDigits(n / 10);
      var s := Digits(n);
      assert s[..|s| - 1] == Digits(n / 10);
    }
  }

  /** A string with no white space at either end is its own trimmed form. */
  lemma TrimmedIdentity(s: string)
    requires s != [] && !IsNumberWhite(s[0]) && !IsNumberWhite(s[|s| - 1])
    ensures TrimEnd(TrimStart(s)) == s
  {
    assert TrimStart(s) == s;
  }

  /** A plain string of digits parses to its value when that fits. */
  lemma ParsesDigits(s: string)
    requires s != [] && AllDigits(s) && DecimalValue(s) <= MaxInt32
    ensures TryParseInt32(s) == Some(DecimalValue(s))
  {
    TrimmedIdentity(s);
  }

  /** A minus sign before a string of digits negates its value. */
  lemma ParsesNegatedDigits(s: string)
    requires s != [] && AllDigits(s) && DecimalValue(s) <= -MinInt32
    ensures TryParseInt32("-" + s) == Some(-(DecimalValue(s) as int))
  {
    var t := "-" + s;
    TrimmedIdentity(t);
    assert t[1..] == s;
  }

  /** Every 32-bit integer written in decimal parses back to itself. */
  lemma ParsesIntToString(n: int)
    requires MinInt32 <= n <= MaxInt32
    ensures TryParseInt32(IntToString(n)) == Some(n)
  {
    if n < 0 {
      DecimalValueOfDigits(-n);
      ParsesNegatedDigits(Digits(-n));
    } else {
      DecimalValueOfDigits(n);
      ParsesDigits(Digits(n));
    }
  }

  /** The options the simulator runs with. */
  datatype CommandLineOptions = CommandLineOptions(deviceId: string, port: int)

  const DefaultOptions: CommandLineOptions := CommandLineOptions("GPS-0001", 5001)

  /** `string.Equals(arg, flag, StringComparison.OrdinalIgnoreCase)`. */
  predicate IsFlag(arg: string, flag: string) {
    EqualsIgnoreCase(arg, flag)
  }

  /** One step of the scan at the head of `args`: the options afterwards and the number of arguments
      consumed (a flag with a value following it takes both). */
  function Step(args: seq<string>, acc: CommandLineOptions): (r: (CommandLineOptions, nat))
    requires args != []
    ensures 1 <= r.1 <= |args|
  {
    if IsFlag(args[0], "--port") && |args| > 1 then (acc.(port := TryParseInt32(args[1]).GetOr(acc.port)), 2)
    else if IsFlag(args[0], "--deviceId") && |args| > 1 then (acc.(deviceId := args[1]), 2)
    else (acc, 1)
  }

  /** The options after reading `args` from left to right, starting from `acc`. */
  function Scan(args: seq<string>, acc: CommandLineOptions): CommandLineOptions
    decreases |args|
  {
    if args == [] then acc
    else
      var (next, n) := Step(args, acc);
      Scan(args[n..], next)
  }

  /** A flag that takes a value. */
  predicate TakesValue(arg: string) {
    IsFlag(arg, "--port") || IsFlag(arg, "--deviceId")
  }

  /** `args` is read without its last element being taken as a flag waiting for a value. */
  predicate Closed(args: seq<string>)
    decreases |args|
  {
    if args == [] then true
    else if TakesValue(args[0]) then |args| > 1 && Closed(args[2..])
    else Closed(args[1..])
  }

  /** A step at the head of a closed prefix does not look past it. */
  lemma StepInPrefix(a: seq<string>, b: seq<string>, acc: CommandLineOptions)
    requires a != [] && Closed(a)
    ensures Step(a + b, acc) == Step(a, acc)
    ensures Closed(a[Step(a, acc).1..])
    ensures (a + b)[Step(a, acc).1..] == a[Step(a, acc).1..] + b
  {
    assert (a + b)[0] == a[0];
    if TakesValue(a[0]) {
      assert (a + b)[1] == a[1];
    }
    DropAppend(a, b, Step(a, acc).1);
  }

  lemma DropAppend<T>(a: seq<T>, b: seq<T>, n: nat)
    requires n <= |a|
    ensures (a + b)[n..] == a[n..] + b
  {
  }

  /** `CommandLineOptions.Parse(args)`: scan the arguments with an index that also steps over each
      flag's value. */
  method Parse(args: seq<string>) returns (options: CommandLineOptions)
    ensures options == Scan(args, DefaultOptions)
  {
    var deviceId := "GPS-0001";
    var port := 5001;

    var index := 0;
    while index < |args|
      invariant 0 <= index <= |args|
      invariant Scan(args[index..], CommandLineOptions(deviceId, port)) == Scan(args, DefaultOptions)
      decreases |args| - index
    {
      var arg := args[index];
      assert args[index..][0] == arg;
      if IsFlag(arg, "--port") && index + 1 < |args| {
        index := index + 1;
        var parsedPort := TryParseInt32(args[index]);
        if parsedPort.Some? {
          port := parsedPort.value;
        }
        assert args[index - 1..][2..] == args[index + 1..];
      } else if IsFlag(arg, "--deviceId") && index + 1 < |args| {
        index := index + 1;
        deviceId := args[index];
        assert args[index - 1..][2..] == args[index + 1..];
      } else {
        assert args[index..][1..] == args[index + 1..];
      }
      index := index + 1;
    }
    options := CommandLineOptions(deviceId, port);
  }

  /** Reading a closed prefix and then the rest is reading the whole. */
  lemma {:induction false} ScanAppend(a: seq<string>, b: seq<string>, acc: CommandLineOptions)
    requires Closed(a)
    ensures Scan(a + b, acc) == Scan(b, Scan(a, acc))
    decreases |a|
  {
    if a != [] {
      StepInPrefix(a, b, acc);
      var (next, n) := Step(a, acc);
      ScanAppend(a[n..], b, next);
    } else {
      assert a + b == b;
    }
  }

  /** With no arguments the defaults are used. */
  lemma NoArgumentsGiveDefaults()
    ensures Scan([], DefaultOptions) == CommandLineOptions("GPS-0001", 5001)
  {
  }

  /** A later `--port` overrides what came before when its value parses, and keeps it otherwise; a
      later `--deviceId` overrides verbatim; neither touches the other option. */
  lemma {:induction false} LaterFlagOverrides(a: seq<string>, flag: string, v: string, acc: CommandLineOptions)
    requires Closed(a)
    ensures IsFlag(flag, "--port") ==>
              var r := Scan(a + [flag, v], acc);
              r.port == TryParseInt32(v).GetOr(Scan(a, acc).port) && r.deviceId == Scan(a, acc).deviceId
    ensures IsFlag(flag, "--deviceId") && !IsFlag(flag, "--port") ==>
              Scan(a + [flag, v], acc) == Scan(a, acc).(deviceId := v)
  {
    ScanAppend(a, [flag, v], acc);
    assert [flag, v][2..] == [];
  }

  /** A flag in the last position, or any argument that is not a flag, changes nothing. */
  lemma {:induction false} StrayArgumentsIgnored(a: seq<string>, arg: string, acc: CommandLineOptions)
    requires Closed(a)
    ensures Scan(a + [arg], acc) == Scan(a, acc)
  {
    ScanAppend(a, [arg], acc);
    assert [arg][1..] == [];
  }

  /** Two argument lists whose heads are recognised as the same flags and whose tails agree are read
      alike. */
  lemma SameFlagsScanAlike(x: seq<string>, y: seq<string>, acc: CommandLineOptions)
    requires x != [] && |x| == |y| && x[1..] == y[1..]
    requires IsFlag(x[0], "--port") == IsFlag(y[0], "--port")
    requires IsFlag(x[0], "--deviceId") == IsFlag(y[0], "--deviceId")
    ensures Scan(x, acc) == Scan(y, acc)
  {
    if |x| > 1 {
      assert x[1] == x[1..][0] == y[1..][0] == y[1];
    }
    var n := Step(x, acc).1;
    assert Step(x, acc) == Step(y, acc);
    assert x[n..] == x[1..][n - 1..] == y[1..][n - 1..] == y[n..];
  }

  /** Flag names match whatever their case. */
  lemma FlagsIgnoreCase(flag: string, rest: seq<string>, acc: CommandLineOptions)
    requires IsFlag(flag, "--port") || IsFlag(flag, "--deviceId")
    ensures IsFlag(flag, "--port") ==> Scan([flag] + rest, acc) == Scan(["--port"] + rest, acc)
    ensures IsFlag(flag, "--deviceId") ==> Scan([flag] + rest, acc) == Scan(["--deviceId"] + rest, acc)
  {
    var canonical := if IsFlag(flag, "--port") then "--port" else "--deviceId";
    var x, y := [flag] + rest, [canonical] + rest;
    assert x[0] == flag && y[0] == canonical;
    assert x[1..] == rest == y[1..];
    SameFlagsScanAlike(x, y, acc);
  }

  /** `--port` followed by any 32-bit number written in decimal selects that port. */
  lemma PortRoundTrip(n: int, acc: CommandLineOptions)
    requires MinInt32 <= n <= MaxInt32
    ensures Scan(["--port", IntToString(n)], acc) == acc.(port := n)
  {
    ParsesIntToString(n);
    assert ["--port", IntToString(n)][2..] == [];
  }
}
