// Rewriting the AVD configuration text (apps/daemon): split into lines, drop
// the managed settings, append them again.
module AvdConfig {

  const KEYS: seq<string> := ["hw.cpu.ncore=", "hw.ramSize=", "hw.lcd.width=", "hw.lcd.height=", "hw.lcd.density="]

  /** The five managed settings. */
  datatype Device = Device(vcpus: nat, ramMb: nat, width: nat, height: nat, dpi: nat)

  function StripCr(line: string): string {
    if line != "" && line[|line| - 1] == '\r' then line[..|line| - 1] else line
  }

  /** The index of the first newline at or after `i`, or the length. */
  function LineEnd(text: string, i: nat): (e: nat)
    requires i <= |text|
    ensures i <= e <= |text|
    decreases |text| - i
  {
    if i == |text| || text[i] == '\n' then i else LineEnd(text, i + 1)
  }

  /** `str::lines`: pieces ended by "\n" or "\r\n", and what follows the last newline if not empty. */
  function Lines(text: string): seq<string>
    decreases |text|
  {
    if text == "" then [] else
    var e := LineEnd(text, 0);
    if e == |text| then [text] else [StripCr(text[..e])] + Lines(text[e + 1..])
  }

  /** Each line followed by a newline. */
  function Unlines(lines: seq<string>): string {
    if lines == [] then "" else lines[0] + "\n" + Unlines(lines[1..])
  }

  predicate Managed(line: string) {
    exists k :: 0 <= k < |KEYS| && KEYS[k] <= line
  }

  function Unmanaged(lines: seq<string>): seq<string> {
    if lines == [] then [] else (if Managed(lines[0]) then [] else [lines[0]]) + Unmanaged(lines[1..])
  }

  function Decimal(n: nat): string {
    if n < 10 then [Digit(n)] else Decimal(n / 10) + [Digit(n % 10)]
  }

  function Digit(d: nat): char
    requires d < 10
  {
    "0123456789"[d]
  }

  function Settings(d: Device): seq<string> {
    [KEYS[0] + Decimal(d.vcpus), KEYS[1] + Decimal(d.ramMb), KEYS[2] + Decimal(d.width),
     KEYS[3] + Decimal(d.height), KEYS[4] + Decimal(d.dpi)]
  }

  /** The rewritten file. */
  function Configure(text: string, d: Device): string {
    Unlines(Unmanaged(Lines(text))) + Unlines(Settings(d))
  }

  // ---- Splitting and joining ----

  ghost predicate Free(text: string, c: char) {
    forall i :: 0 <= i < |text| ==> text[i] != c
  }

  ghost predicate AllFree(lines: seq<string>, c: char) {
    forall i :: 0 <= i < |lines| ==> Free(lines[i], c)
  }

  /** What a second splitting does to lines: each loses one carriage return at its end. */
  ghost function Stripped(lines: seq<string>): seq<string> {
    seq(|lines|, i requires 0 <= i < |lines| => StripCr(lines[i]))
  }

  lemma {:induction false} LineEndIs(text: string, i: nat)
    requires i <= |text|
    ensures forall j :: i <= j < LineEnd(text, i) ==> text[j] != '\n'
    ensures LineEnd(text, i) < |text| ==> text[LineEnd(text, i)] == '\n'
    decreases |text| - i
  {
    if i < |text| && text[i] != '\n' { LineEndIs(text, i + 1); }
  }

  lemma LineEndAt(line: string, rest: string)
    requires Free(line, '\n')
    ensures LineEnd(line + "\n" + rest, 0) == |line|
  {
    var text := line + "\n" + rest;
    LineEndIs(text, 0);
    assert text[|line|] == '\n';
  }

  /** Splitting undoes joining, but for carriage returns at line ends. */
  lemma {:induction false} LinesOfUnlines(lines: seq<string>)
    requires AllFree(lines, '\n')
    ensures Lines(Unlines(lines)) == Stripped(lines)
    decreases |lines|
  {
    if lines != [] {
      var line, rest := lines[0], Unlines(lines[1..]);
      var text := line + "\n" + rest;
      assert Free(line, '\n');
      LineEndAt(line, rest);
      assert text[..|line|] == line && text[|line| + 1..] == rest;
      LinesOfUnlines(lines[1..]);
    }
  }

  /** A line ends at its newline, with or without a carriage return before it; the last one needs no newline. */
  lemma LineSplits(line: string, rest: string)
    requires Free(line, '\n')
    ensures Lines(line + "\r\n" + rest) == [line] + Lines(rest)
    ensures Free(line, '\r') ==> Lines(line + "\n" + rest) == [line] + Lines(rest)
    ensures line != "" ==> Lines(line) == [line]
  {
    LineEndAt(line, rest);
    var text := line + "\n" + rest;
    assert text[..|line|] == line && text[|line| + 1..] == rest;
    var crlf := line + "\r";
    LineEndAt(crlf, rest);
    assert crlf + "\n" + rest == line + "\r\n" + rest;
    assert (crlf + "\n" + rest)[..|crlf|] == crlf && (crlf + "\n" + rest)[|crlf| + 1..] == rest;
    LineEndIs(line, 0);
  }

  lemma {:induction false} LinesAreClean(text: string)
    ensures AllFree(Lines(text), '\n')
    ensures Free(text, '\r') ==> AllFree(Lines(text), '\r')
    decreases |text|
  {
    if text != "" {
      var e := LineEnd(text, 0);
      LineEndIs(text, 0);
      if e < |text| {
        LinesAreClean(text[e + 1..]);
        assert Free(StripCr(text[..e]), '\n');
      }
    }
  }

  lemma {:induction false} UnlinesAppend(a: seq<string>, b: seq<string>)
    ensures Unlines(a + b) == Unlines(a) + Unlines(b)
    decreases |a|
  {
    if a == [] {
      assert a + b == b;
    } else {
      UnlinesAppend(a[1..], b);
      assert (a + b)[1..] == a[1..] + b;
    }
  }

  // ---- Managed lines ----

  ghost predicate NoneManaged(lines: seq<string>) {
    forall i :: 0 <= i < |lines| ==> !Managed(lines[i])
  }

  ghost predicate AllManaged(lines: seq<string>) {
    forall i :: 0 <= i < |lines| ==> Managed(lines[i])
  }

  lemma {:induction false} UnmanagedAre(lines: seq<string>)
    ensures NoneManaged(Unmanaged(lines))
    ensures AllFree(lines, '\n') ==> AllFree(Unmanaged(lines), '\n')
    ensures AllFree(lines, '\r') ==> AllFree(Unmanaged(lines), '\r')
    decreases |lines|
  {
    hide Managed, Free;
    if lines != [] { UnmanagedAre(lines[1..]); }
  }

  lemma {:induction false} UnmanagedKeeps(kept: seq<string>, dropped: seq<string>)
    requires NoneManaged(kept) && AllManaged(dropped)
    ensures Unmanaged(kept + dropped) == kept
    decreases |kept| + |dropped|
  {
    hide Managed;
    var all := kept + dropped;
    if kept != [] {
      UnmanagedKeeps(kept[1..], dropped);
      assert all[1..] == kept[1..] + dropped;
    } else if dropped != [] {
      assert all == dropped && kept + dropped[1..] == all[1..];
      UnmanagedKeeps(kept, dropped[1..]);
    }
  }

  lemma KeysAreClean(k: nat)
    requires k < |KEYS|
    ensures Free(KEYS[k], '\r') && Free(KEYS[k], '\n') && KEYS[k] != ""
  {
  }

  /** Dropping a carriage return at the end decides nothing about management. */
  lemma ManagedStripped(line: string)
    ensures Managed(StripCr(line)) <==> Managed(line)
  {
    if Managed(line) {
      var k :| 0 <= k < |KEYS| && KEYS[k] <= line;
      KeysAreClean(k);
      assert KEYS[k] <= StripCr(line);
    }
    if Managed(StripCr(line)) {
      var k :| 0 <= k < |KEYS| && KEYS[k] <= StripCr(line);
      assert KEYS[k] <= line;
    }
  }

  lemma {:induction false} DecimalIsClean(n: nat)
    ensures Free(Decimal(n), '\r') && Free(Decimal(n), '\n')
  {
    if n >= 10 { DecimalIsClean(n / 10); }
  }

  /** The number a string of digits names, read from the left. */
  ghost function Parsed(digits: string): nat {
    if digits == "" then 0 else
    var last := digits[|digits| - 1] as int - '0' as int;
    Parsed(digits[..|digits| - 1]) * 10 + if last >= 0 then last else 0
  }

  /** A setting's value is written in digits, without leading zeros, that read back as the value. */
  lemma {:induction false} DecimalReadsBack(n: nat)
    ensures Parsed(Decimal(n)) == n
    ensures forall i :: 0 <= i < |Decimal(n)| ==> '0' <= Decimal(n)[i] <= '9'
    ensures Decimal(n) != "" && (Decimal(n)[0] == '0' ==> n == 0 && |Decimal(n)| == 1)
  {
    DigitIs(n % 10);
    if n < 10 {
      assert [Digit(n)][..0] == "";
    } else {
      DecimalReadsBack(n / 10);
      assert Decimal(n)[..|Decimal(n)| - 1] == Decimal(n / 10);
    }
  }

  lemma DigitIs(d: nat)
    requires d < 10
    ensures Digit(d) as int == '0' as int + d
  {
  }

  lemma SettingIs(k: nat, n: nat)
    requires k < |KEYS|
    ensures var line := KEYS[k] + Decimal(n);
      KEYS[k] <= line && Managed(line) && Free(line, '\r') && Free(line, '\n') && StripCr(line) == line
  {
    hide Decimal;
    KeysAreClean(k);
    DecimalIsClean(n);
    var line := KEYS[k] + Decimal(n);
    assert Free(line, '\r');
  }

  function Value(d: Device, k: nat): nat
    requires k < |KEYS|
  {
    [d.vcpus, d.ramMb, d.width, d.height, d.dpi][k]
  }

  lemma SettingsAre(d: Device)
    ensures |Settings(d)| == |KEYS| && AllManaged(Settings(d)) && Stripped(Settings(d)) == Settings(d)
    ensures AllFree(Settings(d), '\n')
    ensures forall k :: 0 <= k < |KEYS| ==>
      Settings(d)[k] == KEYS[k] + Decimal(Value(d, k)) && KEYS[k] <= Settings(d)[k]
  {
    hide Decimal, Managed, Free, StripCr;
    forall k: nat | k < |KEYS|
      ensures var line := Settings(d)[k];
        && line == KEYS[k] + Decimal(Value(d, k)) && KEYS[k] <= line
        && Managed(line) && Free(line, '\n') && StripCr(line) == line
    {
      SettingIs(k, Value(d, k));
    }
  }

  /** The lines of a rewritten file: the unmanaged lines, in order, and then the five settings. */
  lemma LinesOfConfigure(text: string, d: Device)
    ensures Lines(Configure(text, d)) == Stripped(Unmanaged(Lines(text))) + Settings(d)
    ensures NoneManaged(Stripped(Unmanaged(Lines(text))))
  {
    hide Lines, Unlines, Unmanaged, Managed, Settings, StripCr, Free;
    var kept := Unmanaged(Lines(text));
    LinesAreClean(text);
    UnmanagedAre(Lines(text));
    SettingsAre(d);
    UnlinesAppend(kept, Settings(d));
    LinesOfUnlines(kept + Settings(d));
    assert Stripped(kept + Settings(d)) == Stripped(kept) + Stripped(Settings(d));
    forall i | 0 <= i < |kept| ensures !Managed(StripCr(kept[i])) {
      ManagedStripped(kept[i]);
    }
  }

  lemma ConfigureTwice(text: string, d1: Device, d2: Device)
    ensures Configure(Configure(text, d1), d2) == Unlines(Stripped(Unmanaged(Lines(text)))) + Unlines(Settings(d2))
  {
    hide Lines, Unlines, Unmanaged, Managed, Settings, StripCr;
    LinesOfConfigure(text, d1);
    SettingsAre(d1);
    UnmanagedKeeps(Stripped(Unmanaged(Lines(text))), Settings(d1));
  }

  // ---- Main results ----

  lemma {:induction false} StrippedShrinks(lines: seq<string>)
    ensures |Unlines(Stripped(lines))| <= |Unlines(lines)|
    ensures Stripped(lines) != lines ==> |Unlines(Stripped(lines))| < |Unlines(lines)|
    decreases |lines|
  {
    if lines != [] {
      StrippedShrinks(lines[1..]);
      assert Stripped(lines)[1..] == Stripped(lines[1..]);
      if Stripped(lines[1..]) == lines[1..] && StripCr(lines[0]) == lines[0] {
        assert Stripped(lines) == lines;
      }
    }
  }

  /**
   * Last writer wins: writing one device's settings over another's is the same as writing them alone,
   * exactly when no unmanaged line still ends in a carriage return once the text is split.
   */
  lemma LastWriterWinsIff(text: string, d1: Device, d2: Device)
    ensures Configure(Configure(text, d1), d2) == Configure(text, d2)
      <==> var kept := Unmanaged(Lines(text)); forall i :: 0 <= i < |kept| ==> StripCr(kept[i]) == kept[i]
  {
    hide Lines, Unlines, Unmanaged, Settings, StripCr;
    var kept := Unmanaged(Lines(text));
    ConfigureTwice(text, d1, d2);
    StrippedShrinks(kept);
    if forall i :: 0 <= i < |kept| ==> StripCr(kept[i]) == kept[i] {
      assert Stripped(kept) == kept;
    } else {
      assert Stripped(kept) != kept by {
        var i :| 0 <= i < |kept| && StripCr(kept[i]) != kept[i];
        assert Stripped(kept)[i] != kept[i];
      }
    }
  }

  /** In particular on every text without carriage returns, where the unmanaged lines also survive exactly. */
  lemma LastWriterWins(text: string, d1: Device, d2: Device)
    requires Free(text, '\r')
    ensures Configure(Configure(text, d1), d2) == Configure(text, d2)
    ensures Unmanaged(Lines(Configure(text, d1))) == Unmanaged(Lines(text))
  {
    hide Lines, Unlines, Unmanaged, Settings, Managed;
    var kept := Unmanaged(Lines(text));
    LinesAreClean(text);
    UnmanagedAre(Lines(text));
    assert Stripped(kept) == kept by {
      forall i | 0 <= i < |kept| ensures StripCr(kept[i]) == kept[i] { assert Free(kept[i], '\r'); }
    }
    ConfigureTwice(text, d1, d2);
    LinesOfConfigure(text, d1);
    SettingsAre(d1);
    UnmanagedKeeps(kept, Settings(d1));
  }

  lemma KeysDiffer(j: nat, k: nat, line: string)
    requires j < |KEYS| && k < |KEYS| && KEYS[j] <= line && KEYS[k] <= line
    ensures j == k
  {
    assert line[3] == KEYS[j][3] == KEYS[k][3];
    assert line[7] == KEYS[j][7] == KEYS[k][7];
  }

  /** The last five lines of a rewritten file, as the emulator reads them. */
  lemma SettingsRead(text: string, d: Device)
    ensures var out := Lines(Configure(text, d));
      var n := |out|;
      && n >= 5
      && ReadsAs(out[n - 5], "hw.cpu.ncore=", d.vcpus) && ReadsAs(out[n - 4], "hw.ramSize=", d.ramMb)
      && ReadsAs(out[n - 3], "hw.lcd.width=", d.width) && ReadsAs(out[n - 2], "hw.lcd.height=", d.height)
      && ReadsAs(out[n - 1], "hw.lcd.density=", d.dpi)
  {
    LinesOfConfigure(text, d);
    hide Lines, Unlines, Unmanaged, Configure, Stripped, Decimal, ReadsAs;
    SettingReads("hw.cpu.ncore=", d.vcpus);
    SettingReads("hw.ramSize=", d.ramMb);
    SettingReads("hw.lcd.width=", d.width);
    SettingReads("hw.lcd.height=", d.height);
    SettingReads("hw.lcd.density=", d.dpi);
  }

  lemma SettingReads(key: string, value: nat)
    ensures ReadsAs(key + Decimal(value), key, value)
  {
    hide Decimal, Parsed;
    DecimalReadsBack(value);
    assert (key + Decimal(value))[|key|..] == Decimal(value);
  }

  /** The line is the key and then digits that name the value. */
  ghost predicate ReadsAs(line: string, key: string, value: nat) {
    && key <= line && |key| < |line| && Parsed(line[|key|..]) == value
    && forall i :: |key| <= i < |line| ==> '0' <= line[i] <= '9'
  }

  /** Whatever the text was, each managed key starts exactly one line of the result, with the device's value. */
  lemma EachKeyOnce(text: string, d: Device, k: nat, i: nat)
    requires k < |KEYS| && i < |Lines(Configure(text, d))|
    ensures var out := Lines(Configure(text, d));
      var at := |out| - |KEYS| + k;
      && |KEYS| <= |out| && out[at] == KEYS[k] + Decimal(Value(d, k))
      && (KEYS[k] <= out[i] <==> i == at)
  {
    hide Lines, Unlines, Unmanaged, Configure, Settings;
    LinesOfConfigure(text, d);
    SettingsAre(d);
    var kept, out := Stripped(Unmanaged(Lines(text))), Lines(Configure(text, d));
    if KEYS[k] <= out[i] {
      if i >= |kept| {
        KeysDiffer(k, i - |kept|, out[i]);
      }
    }
  }
}
