/** Lines of /proc/self/mountinfo: fields between spaces, with octal escapes inside a field. */
module MountInfo {
  import opened Splitting
  import opened Wrappers

  datatype DiskMountInfo = DiskMountInfo(mountPoint: string, fsType: string, source: string)

  function NonEmpty(pieces: seq<string>): seq<string> {
    if pieces == [] then []
    else (if pieces[0] == "" then [] else [pieces[0]]) + NonEmpty(pieces[1..])
  }

  function Fields(value: string): seq<string> {
    NonEmpty(Split(' ', value))
  }

  method SkipSpaces(value: string, from: nat) returns (start: nat)
    requires from <= |value|
    ensures from <= start <= |value| && (start < |value| ==> value[start] != ' ')
    ensures Fields(value[from..]) == Fields(value[start..])
  {
    start := from;
    while start < |value| && value[start] == ' '
      invariant from <= start <= |value| && Fields(value[from..]) == Fields(value[start..])
    {
      SkipSpace(value, start);
      start := start + 1;
    }
  }

  // The field that starts at start, and the place behind the space after it.
  method FieldFrom(value: string, start: nat) returns (field: string, next: nat, ghost rest: seq<string>)
    requires start < |value| && value[start] != ' '
    ensures start < next <= |value| && Fields(value[start..]) == [field] + rest && rest == Fields(value[next..])
  {
    var separator := start + IndexOf(' ', value[start..]);
    TakeField(value, start, separator);
    field := value[start..separator];
    next := if separator == |value| then separator else separator + 1;
    rest := Fields(value[next..]);
    NoFields();
    assert separator == |value| ==> value[next..] == "";
  }

  lemma NoFields()
    ensures Fields("") == []
  {
    assert Split(' ', "") == [""] && NonEmpty([""]) == [] + NonEmpty([]);
  }

  method SplitSpaces(value: string) returns (fields: seq<string>)
    ensures fields == Fields(value)
  {
    fields := [];
    var start := 0;
    ghost var all, rest := Fields(value), Fields(value);
    assert value[0..] == value;
    while start < |value|
      invariant start <= |value| && rest == Fields(value[start..]) && all == fields + rest
      decreases |value| - start
    {
      start := SkipSpaces(value, start);
      if start >= |value| {
        break;
      }
      var field, next;
      field, next, rest := FieldFrom(value, start);
      Associate(fields, [field], rest);
      fields := fields + [field];
      start := next;
    }
    assert value[start..] == "";
    NoFields();
  }

  lemma SkipSpace(value: string, start: nat)
    requires start < |value| && value[start] == ' '
    ensures Fields(value[start..]) == Fields(value[start + 1..])
  {
    assert value[start..] == "" + [' '] + value[start + 1..];
    SplitFirst(' ', "", value[start + 1..]);
    assert ([""] + Split(' ', value[start + 1..]))[1..] == Split(' ', value[start + 1..]);
  }

  lemma FirstField(field: string, rest: string)
    requires field != "" && ' ' !in field
    ensures Fields(field) == [field]
    ensures Fields(field + [' '] + rest) == [field] + Fields(rest)
  {
    SplitFirst(' ', field, rest);
    assert ([field] + Split(' ', rest))[1..] == Split(' ', rest);
    assert NonEmpty([field]) == [field] + NonEmpty([]);
  }

  lemma TakeField(value: string, start: nat, separator: nat)
    requires start < |value| && value[start] != ' '
    requires separator == start + IndexOf(' ', value[start..])
    ensures Fields(value[start..]) ==
            [value[start..separator]] + if separator == |value| then [] else Fields(value[separator + 1..])
  {
    var text, field := value[start..], value[start..separator];
    assert text[..separator - start] == field;
    if separator == |value| {
      assert text == field;
      FirstField(field, "");
      assert [field] + [] == [field];
    } else {
      assert text == field + [' '] + value[separator + 1..];
      FirstField(field, value[separator + 1..]);
    }
  }

  predicate IsOctal(c: char) {
    '0' <= c <= '7'
  }

  function OctalDigit(c: char): nat
    requires IsOctal(c)
  {
    c as int - '0' as int
  }

  predicate IsEscape(value: string) {
    3 < |value| && value[0] == '\\' && IsOctal(value[1]) && IsOctal(value[2]) && IsOctal(value[3])
  }

  // Three octal digits make nine bits, of which a char keeps eight.
  function EscapedChar(value: string): char
    requires IsEscape(value)
  {
    ((64 * OctalDigit(value[1]) + 8 * OctalDigit(value[2]) + OctalDigit(value[3])) % 256) as char
  }

  function Decode(value: string): string {
    if value == "" then ""
    else if IsEscape(value) then [EscapedChar(value)] + Decode(value[4..])
    else [value[0]] + Decode(value[1..])
  }

  function OctalDigitValue(value: char): (digit: int)
    ensures digit >= 0 <==> IsOctal(value)
    ensures digit >= 0 ==> digit == OctalDigit(value)
  {
    if value < '0' || value > '7' then -1 else value as int - '0' as int
  }

  method DecodeMountinfoValue(value: string) returns (output: string)
    ensures output == Decode(value)
  {
    output := "";
    var index := 0;
    assert value[0..] == value;
    while index < |value|
      invariant index <= |value| && Decode(value) == output + Decode(value[index..])
    {
      ghost var rest := value[index..];
      assert |rest| == |value| - index && forall k :: 0 <= k < |rest| ==> rest[k] == value[index + k];
      assert rest[1..] == value[index + 1..];
      if value[index] == '\\' && index + 3 < |value| {
        assert rest[4..] == value[index + 4..];
        var first := OctalDigitValue(value[index + 1]);
        var second := OctalDigitValue(value[index + 2]);
        var third := OctalDigitValue(value[index + 3]);
        if first >= 0 && second >= 0 && third >= 0 {
          output := output + [((64 * first + 8 * second + third) % 256) as char];
          index := index + 4;
          continue;
        }
      }
      output := output + [value[index]];
      index := index + 1;
    }
  }

  // What a line with these fields says, if it is a line of mountinfo at all.
  function MountOf(fields: seq<string>): Option<DiskMountInfo> {
    var separator := FirstDash(fields);
    if |fields| < 10 || separator < 6 || separator + 3 >= |fields| then None
    else Some(DiskMountInfo(Decode(fields[4]), Decode(fields[separator + 1]), Decode(fields[separator + 2])))
  }

  function FirstDash(fields: seq<string>): (i: nat)
    ensures i <= |fields| && "-" !in fields[..i]
    ensures i < |fields| ==> fields[i] == "-"
  {
    if fields == [] || fields[0] == "-" then 0
    else
      var i := FirstDash(fields[1..]);
      assert fields[..1 + i] == [fields[0]] + fields[1..][..i];
      1 + i
  }

  method ParseMountinfoLine(line: string) returns (mount: Option<DiskMountInfo>)
    ensures mount == MountOf(Fields(line))
  {
    var fields := SplitSpaces(line);
    if |fields| < 10 {
      return None;
    }
    var separator := FirstDash(fields);
    if separator == |fields| {
      return None;
    }
    if separator < 6 || separator + 3 >= |fields| {
      return None;
    }
    var mountPoint := DecodeMountinfoValue(fields[4]);
    var fsType := DecodeMountinfoValue(fields[separator + 1]);
    var source := DecodeMountinfoValue(fields[separator + 2]);
    return Some(DiskMountInfo(mountPoint, fsType, source));
  }

  // The printer of the kernel: it escapes a set of characters, and may escape more than it must.
  function Escaped(c: char): string
    requires c as int < 256
  {
    var code := c as int;
    ['\\', ('0' as int + code / 64) as char, ('0' as int + code / 8 % 8) as char, ('0' as int + code % 8) as char]
  }

  predicate IsByteText(value: string) {
    forall i :: 0 <= i < |value| ==> value[i] as int < 256
  }

  function Encode(escapes: set<char>, value: string): string
    requires IsByteText(value)
  {
    if value == "" then ""
    else (if value[0] in escapes then Escaped(value[0]) else [value[0]]) + Encode(escapes, value[1..])
  }

  predicate MustEscape(escapes: set<char>) {
    {' ', '\t', '\n', '\\'} <= escapes
  }

  lemma EscapedDecodes(c: char, rest: string)
    requires c as int < 256
    ensures IsEscape(Escaped(c) + rest) && EscapedChar(Escaped(c) + rest) == c
    ensures (Escaped(c) + rest)[4..] == rest
    ensures ' ' !in Escaped(c) && '\n' !in Escaped(c)
  {
    var code := c as int;
    assert code == 64 * (code / 64) + 8 * (code / 8 % 8) + code % 8;
  }

  lemma {:induction false} DecodeAfterEncode(escapes: set<char>, value: string)
    requires IsByteText(value) && MustEscape(escapes)
    ensures Decode(Encode(escapes, value)) == value
    ensures ' ' !in Encode(escapes, value) && '\n' !in Encode(escapes, value)
    ensures value != "" ==> Encode(escapes, value) != ""
  {
    if value != "" {
      var c, rest := value[0], Encode(escapes, value[1..]);
      DecodeAfterEncode(escapes, value[1..]);
      if c in escapes {
        EscapedDecodes(c, rest);
      } else {
        assert ' ' in escapes && '\n' in escapes && '\\' in escapes;
        assert ([c] + rest)[1..] == rest;
      }
    }
  }

  function Joined(fields: seq<string>): string {
    if fields == [] then ""
    else if |fields| == 1 then fields[0]
    else fields[0] + [' '] + Joined(fields[1..])
  }

  predicate AreFields(fields: seq<string>) {
    forall i :: 0 <= i < |fields| ==> fields[i] != "" && ' ' !in fields[i]
  }

  lemma {:induction false} FieldsOfJoined(fields: seq<string>)
    requires AreFields(fields)
    ensures Fields(Joined(fields)) == fields
  {
    if fields == [] {
      assert Split(' ', "") == [""];
      assert NonEmpty([""]) == [] + NonEmpty([]);
    } else {
      FirstField(fields[0], Joined(fields[1..]));
      FieldsOfJoined(fields[1..]);
      assert [fields[0]] + fields[1..] == fields;
    }
  }

  // The six fields before the optional ones, of which the fifth is the mount point, any optional fields,
  // the separator, the type, the source, and the options of the file system.
  lemma MountInfoRoundTrip(escapes: set<char>, mount: DiskMountInfo, first: seq<string>, options: string,
                           optional: seq<string>, more: seq<string>)
    requires MustEscape(escapes) && |first| == 4 && |more| > 0
    requires mount.mountPoint != "" && IsByteText(mount.mountPoint)
    requires mount.fsType != "" && IsByteText(mount.fsType)
    requires mount.source != "" && IsByteText(mount.source)
    requires AreFields(first + [options] + optional + more)
    requires "-" !in first + [Encode(escapes, mount.mountPoint), options] + optional
    ensures var before := first + [Encode(escapes, mount.mountPoint), options] + optional;
            var after := [Encode(escapes, mount.fsType), Encode(escapes, mount.source)] + more;
            MountOf(Fields(Joined(before + ["-"] + after))) == Some(mount)
  {
    var before := first + [Encode(escapes, mount.mountPoint), options] + optional;
    var after := [Encode(escapes, mount.fsType), Encode(escapes, mount.source)] + more;
    DecodeAfterEncode(escapes, mount.mountPoint);
    DecodeAfterEncode(escapes, mount.fsType);
    DecodeAfterEncode(escapes, mount.source);
    assert first + ([options] + optional) + more == first + [options] + optional + more;
    FieldsAround(first, [options] + optional, more, before, after);
    FieldsOfJoined(before + ["-"] + after);
    DashAt(before, after);
  }

  lemma FieldsAround(first: seq<string>, optional: seq<string>, more: seq<string>, before: seq<string>,
                     after: seq<string>)
    requires AreFields(first + optional + more)
    requires |before| == |first| + 1 + |optional| && before == first + [before[|first|]] + optional
    requires |after| == 2 + |more| && after == [after[0], after[1]] + more
    requires AreFields([before[|first|], after[0], after[1]])
    ensures AreFields(before + ["-"] + after)
  {
    var fields := first + optional + more;
    assert forall i :: 0 <= i < |first| ==> first[i] == fields[i];
    assert forall i :: 0 <= i < |optional| ==> optional[i] == fields[|first| + i];
    assert forall i :: 0 <= i < |more| ==> more[i] == fields[|first| + |optional| + i];
    var three := [before[|first|], after[0], after[1]];
    assert three[0] == before[|first|] && three[1] == after[0] && three[2] == after[1];
    assert AreFields(before);
    assert AreFields(after);
  }

  lemma DashAt(before: seq<string>, after: seq<string>)
    requires "-" !in before
    ensures FirstDash(before + ["-"] + after) == |before|
  {
    var fields := before + ["-"] + after;
    var i := FirstDash(fields);
    assert fields[|before|] == "-";
    assert forall k :: 0 <= k < |before| ==> fields[k] == before[k];
    assert forall k :: 0 <= k < i ==> fields[k] == fields[..i][k];
  }

  // ---- What is no escape, and what is no mount ----

  // An escape is four characters that stand for one, whose number is that of its octal digits, without the ninth bit.
  lemma EscapeStandsForOne(a: nat, b: nat, c: nat, rest: string)
    requires a < 8 && b < 8 && c < 8
    ensures var digits := "01234567";
            Decode(['\\', digits[a], digits[b], digits[c]] + rest) ==
            [((a * 64 + b * 8 + c) % 256) as char] + Decode(rest)
  {
    var digits := "01234567";
    var value := ['\\', digits[a], digits[b], digits[c]] + rest;
    assert value[4..] == rest;
    assert forall i :: 0 <= i < 8 ==> OctalDigit(digits[i]) == i;
    assert IsEscape(value);
  }

  // A text without an escape is left as it is, whatever backslashes it has.
  lemma {:induction false} DecodeKeepsOthers(value: string)
    requires forall i :: 0 <= i < |value| && value[i] == '\\' && i + 3 < |value| ==>
               exists k :: i < k < i + 4 && !('0' <= value[k] <= '7')
    ensures Decode(value) == value
  {
    if value != "" {
      var rest := value[1..];
      forall i | 0 <= i < |rest| && rest[i] == '\\' && i + 3 < |rest|
        ensures exists k :: i < k < i + 4 && !('0' <= rest[k] <= '7')
      {
        var k :| i + 1 < k < i + 5 && !('0' <= value[k] <= '7');
        assert rest[k - 1] == value[k];
      }
      DecodeKeepsOthers(rest);
    }
  }

  // A line is a mount exactly when it has ten fields, six of them before the first dash and three behind it.
  lemma MountIffFields(fields: seq<string>)
    ensures MountOf(fields).Some? <==>
            |fields| >= 10 &&
            exists dash :: 6 <= dash < |fields| - 3 && fields[dash] == "-" && "-" !in fields[..dash]
  {
    if dash :| 6 <= dash < |fields| - 3 && fields[dash] == "-" && "-" !in fields[..dash] {
      DashAt(fields[..dash], fields[dash + 1..]);
      assert fields == fields[..dash] + ["-"] + fields[dash + 1..];
    }
  }
}
