/**
 * The line format of the timing device and the dispatch of `handleMessage`
 * (timing/app.js:68-82): a line that starts with "START:" starts a run, one that starts
 * with "RESULT:" finishes one, anything else is ignored. Fields are separated by ':'.
 */
module Messages {
  import opened JsValues
  import opened Strings

  /** What `handleMessage` does with a line: the call it makes, with its arguments. */
  datatype Event =
    | Start(run: Number<int>)
    | Finish(run: Number<int>, time: Number<real>)
    | Ignored

  /** `parseInt(parts[k])` or `parseFloat(parts[k])`; a missing part is `undefined`,
      which both parsers turn into NaN. */
  function IntField(parts: seq<string>, k: nat): Number<int> {
    if k < |parts| then ParseInt(parts[k]) else NaN
  }

  function TimeField(parts: seq<string>, k: nat): Number<real> {
    if k < |parts| then ParseFloat(parts[k]) else NaN
  }

  /** The dispatch of `handleMessage`; the prefix "START:" is checked first. */
  function Classify(data: string): (e: Event)
    ensures e.Start? <==> "START:" <= data
    ensures e.Finish? <==> !("START:" <= data) && "RESULT:" <= data
  {
    if "START:" <= data then
      Start(IntField(Split(data, ':'), 1))
    else if "RESULT:" <= data then
      var parts := Split(data, ':');
      Finish(IntField(parts, 1), TimeField(parts, 2))
    else
      Ignored
  }

  /** A start line carries the number parsed from the text up to the next ':'. */
  lemma StartLine(rest: string)
    ensures Classify("START:" + rest) == Start(ParseInt(Split(rest, ':')[0]))
  {
    assert "START:" <= "START:" + rest;
    StartField(rest);
  }

  lemma {:induction false} StartField(rest: string)
    ensures var parts := Split("START:" + rest, ':');
      |parts| > 1 && parts[1] == Split(rest, ':')[0]
  {
    assert "START:" + rest == "START" + [':'] + rest;
    SplitAfter("START", ':', rest);
  }

  /** A result line carries the number of its second field and the time of its third,
      NaN when the line has no third field. */
  lemma ResultLine(rest: string)
    ensures var parts := Split(rest, ':');
      Classify("RESULT:" + rest)
      == Finish(ParseInt(parts[0]), if |parts| >= 2 then ParseFloat(parts[1]) else NaN)
  {
    var data := "RESULT:" + rest;
    assert data == "RESULT" + [':'] + rest;
    assert !("START:" <= data) by { assert data[0] == 'R'; }
    assert "RESULT:" <= data;
    SplitAfter("RESULT", ':', rest);
  }

  /** Neither prefix: the line is ignored. */
  lemma OtherLine(data: string)
    requires !("START:" <= data) && !("RESULT:" <= data)
    ensures Classify(data) == Ignored
  {}

  /** The line the device sends when run n starts is read back as that start. */
  lemma StartMessage(n: int)
    ensures Classify("START:" + IntText(n)) == Start(Num(n))
  {
    var text := IntText(n);
    assert ':' !in text;
    StartLine(text);
    ParseIntText(n);
  }

  /** The line the device sends when run n finishes, its time written in seconds as
      digits, a point and decimals, is read back as that finish with the exact time. */
  lemma ResultMessage(n: int, whole: string, frac: string)
    requires |whole| > 0 && AllDigits(whole, 10) && AllDigits(frac, 10)
    ensures Classify("RESULT:" + IntText(n) + ":" + whole + "." + frac)
         == Finish(Num(n), Num(DigitsValue(whole, 10) as real + FractionValue(frac)))
  {
    var number, time := IntText(n), whole + "." + frac;
    assert ':' !in number;
    assert ':' !in time by {
      assert forall i :: 0 <= i < |time| ==> time[i] == '.' || IsDigit(time[i]);
    }
    assert "RESULT:" + number + ":" + whole + "." + frac == "RESULT:" + (number + [':'] + time);
    ResultLine(number + [':'] + time);
    SplitAfter(number, ':', time);
    ParseIntText(n);
    ParseFloatDecimal(whole, frac);
  }

  /** A start line whose field holds no digit still starts a run, numbered NaN. */
  lemma StartWithoutNumber(rest: string)
    requires forall i :: 0 <= i < |rest| ==> !IsDigit(rest[i])
    ensures Classify("START:" + rest) == Start(NaN)
  {
    StartLine(rest);
    var field := Split(rest, ':')[0];
    assert field == rest[..|field|];
    NoDigitsNaN(field);
  }

  /** A result line without a time field still finishes a run, timed NaN. */
  lemma ResultWithoutTime(n: int)
    ensures Classify("RESULT:" + IntText(n)) == Finish(Num(n), NaN)
  {
    var number := IntText(n);
    assert ':' !in number;
    ResultLine(number);
    ParseIntText(n);
  }

  /** The example start line of the device's format, "START:1". */
  lemma ExampleStartLine()
    ensures Classify("START:1") == Start(Num(1))
  {
    var number := IntText(1);
    assert number == "1";
    assert "START:" + number == "START:1";
    StartMessage(1);
  }

  /** The example result line of the device's format, "RESULT:1:2.345". */
  lemma ExampleResultLine()
    ensures Classify("RESULT:1:2.345") == Finish(Num(1), Num(2.345))
  {
    ExampleResultText();
    ResultMessage(1, "2", "345");
    ExampleTime();
  }

  lemma {:induction false} ExampleResultText()
    ensures "RESULT:" + IntText(1) + ":" + "2" + "." + "345" == "RESULT:1:2.345"
  {
    assert IntText(1) == "1";
  }

  /** "2.345" read as whole seconds and decimals. */
  lemma {:induction false} ExampleTime()
    ensures DigitsValue("2", 10) as real + FractionValue("345") == 2.345
  {
    assert DigitsValue("2", 10) == 2 by { assert "2"[..0] == []; }
    assert FractionValue("345") == 0.345 by {
      ThreeDecimals('3', '4', '5');
      assert "345" == ['3', '4', '5'];
    }
  }
}
