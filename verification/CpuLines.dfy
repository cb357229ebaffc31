/** The lines of /proc/cpuinfo and of /proc/meminfo: trimmed keys and values around a colon. */
module CpuLines {
  import opened Decimals
  import opened Splitting
  import opened Text

  const SIZE_LIMIT := 0x1_0000_0000_0000_0000 // one more than the largest size

  function TrimEnd(text: string): (kept: string)
    ensures kept <= text
    ensures kept != "" ==> !IsBlank(kept[|kept| - 1])
    ensures forall i :: |kept| <= i < |text| ==> IsBlank(text[i])
  {
    if text != "" && IsBlank(text[|text| - 1]) then TrimEnd(text[..|text| - 1]) else text
  }

  // Only spaces and tabs go at the front.
  function StartOf(text: string): (i: nat)
    ensures i <= |text|
    ensures forall k :: 0 <= k < i ==> text[k] == ' ' || text[k] == '\t'
    ensures i < |text| ==> text[i] != ' ' && text[i] != '\t'
  {
    if text != "" && (text[0] == ' ' || text[0] == '\t') then 1 + StartOf(text[1..]) else 0
  }

  function Trim(text: string): string {
    TrimEnd(text)[StartOf(TrimEnd(text))..]
  }

  lemma TrimIsEmpty(line: string)
    ensures Trim(line) == "" <==> IsBlankText(line)
  {
    var kept := TrimEnd(line);
    assert forall i :: 0 <= i < |kept| ==> kept[i] == line[i];
    assert kept != "" ==> kept[|kept| - 1] in line;
  }

  method TrimString(value: string) returns (trimmed: string)
    ensures trimmed == Trim(value)
  {
    trimmed := value;
    while trimmed != "" && IsBlank(trimmed[|trimmed| - 1])
      invariant TrimEnd(trimmed) == TrimEnd(value)
      decreases |trimmed|
    {
      trimmed := trimmed[..|trimmed| - 1];
    }
    var start := 0;
    while start < |trimmed| && (trimmed[start] == ' ' || trimmed[start] == '\t')
      invariant start <= |trimmed|
      invariant StartOf(trimmed) == start + StartOf(trimmed[start..])
    {
      assert trimmed[start..][1..] == trimmed[start + 1..];
      start := start + 1;
    }
    if start > 0 {
      trimmed := trimmed[start..];
    }
  }

  datatype Line = Blank | Other | Pair(key: string, value: string)

  function LineOf(line: string): Line {
    var n := IndexOf(':', line);
    if IsBlankText(line) then Blank
    else if n == |line| then Other
    else Pair(Trim(line[..n]), Trim(line[n + 1..]))
  }

  // A text that trimming leaves alone.
  predicate IsTrimmed(text: string) {
    text == "" || (!IsBlank(text[0]) && !IsBlank(text[|text| - 1]))
  }

  lemma LineOfPair(key: string, value: string)
    requires key != "" && ':' !in key && IsTrimmed(key) && IsTrimmed(value)
    ensures LineOf(key + ":" + value) == Pair(key, value)
  {
    var line := key + ":" + value;
    assert line[..|key|] == key && line[|key| + 1..] == value;
    IndexOfIsUnique(':', line, |key|);
    assert key[0] == line[0] && line[0] in line;
  }

  predicate HasKey(line: string, key: string) {
    LineOf(line).Pair? && LineOf(line).key == key
  }

  // What is left of a cut line is blank, has no key, or has the key of the whole line.
  lemma CutLine(line: string, g: nat, key: string)
    requires g <= |line| && HasKey(line[..g], key)
    ensures HasKey(line, key)
  {
    var cut := line[..g];
    var n := IndexOf(':', cut);
    assert line[n] == cut[n] == ':' && line[..n] == cut[..n];
    IndexOfIsUnique(':', line, n);
    assert ':' in line;
  }

  // std::stoull: white space, a sign, digits and anything after them. A value without digits or out of
  // range is 0, and a negative one wraps around.
  function ParseSize(value: string): (size: nat)
    ensures size < SIZE_LIMIT
  {
    var i := RunEnd(IsSpace, value, 0);
    var signed := i < |value| && (value[i] == '-' || value[i] == '+');
    var j := if signed then i + 1 else i;
    var end := RunEnd(IsDigit, value, j);
    var digits := value[j..end];
    assert forall k :: 0 <= k < |digits| ==> digits[k] == value[j + k] && IsDigit(value[j + k]);
    var magnitude := DecimalValue(digits);
    if digits == "" || magnitude >= SIZE_LIMIT then 0
    else if signed && value[i] == '-' then (SIZE_LIMIT - magnitude) % SIZE_LIMIT
    else magnitude
  }

  lemma SizeRoundTrip(n: nat)
    requires n < SIZE_LIMIT
    ensures ParseSize(Decimal(n)) == n
  {
    var value := Decimal(n);
    assert RunEnd(IsSpace, value, 0) == 0;
    RunEndIs(IsDigit, value, 0, |value|);
    assert value[0..|value|] == value;
    DecimalRoundTrip(n);
  }

  // ---- Numbers in front of a text ----

  // The parts of a value: white space up to i, perhaps a sign, digits from j to end.
  predicate HasParts(value: string, i: nat, j: nat, end: nat) {
    && i <= j <= end <= |value| && j <= i + 1
    && (forall k :: 0 <= k < i ==> IsSpaceCode(value[k])) && (forall k :: j <= k < end ==> IsDigit(value[k]))
    && (i < |value| ==> !IsSpaceCode(value[i])) && (end < |value| ==> !IsDigit(value[end]))
    && (j == i + 1 <==> i < |value| && (value[i] == '-' || value[i] == '+'))
  }

  lemma SizeOfParts(value: string, i: nat, j: nat, end: nat, digits: string)
    requires HasParts(value, i, j, end) && digits == value[j..end]
    ensures forall k :: 0 <= k < |digits| ==> IsDigit(digits[k])
    ensures ParseSize(value) ==
            var n := DecimalValue(digits);
            if digits == "" || n >= SIZE_LIMIT then 0
            else if i < j && value[i] == '-' then (SIZE_LIMIT - n) % SIZE_LIMIT
            else n
  {
    assert forall k :: 0 <= k < |digits| ==> digits[k] == value[j + k];
    RunEndIs(IsSpace, value, 0, i);
    RunEndIs(IsDigit, value, j, end);
  }

  predicate IsSign(sign: string) {
    sign == "" || sign == "+" || sign == "-"
  }

  predicate AreDigits(text: string) {
    forall k :: 0 <= k < |text| ==> IsDigit(text[k])
  }

  // No digit goes on, and without digits and a sign no space and no sign does.
  predicate IsRest(sign: string, digits: string, more: string) {
    more != "" ==>
      && !IsDigit(more[0])
      && (digits == "" && sign == "" ==> !IsSpaceCode(more[0]) && more[0] != '-' && more[0] != '+')
  }

  lemma PartsOf(front: string, sign: string, digits: string, more: string, value: string)
    requires AreSpaces(front) && IsSign(sign) && AreDigits(digits) && IsRest(sign, digits, more)
    requires value == front + sign + digits + more
    ensures var i, j, end := |front|, |front| + |sign|, |front| + |sign| + |digits|;
            && HasParts(value, i, j, end) && digits == value[j..end] && (sign != "" ==> value[i] == sign[0])
  {
    var i, j, end := |front|, |front| + |sign|, |front| + |sign| + |digits|;
    assert forall k :: 0 <= k < i ==> value[k] == front[k];
    assert forall k :: j <= k < end ==> value[k] == digits[k - j];
    assert digits != "" ==> value[j] == digits[0];
    assert end < |value| ==> value[end] == more[0];
    assert sign != "" ==> value[i] == sign[0];
  }

  lemma SizeOfText(front: string, sign: string, digits: string, more: string, value: string)
    requires AreSpaces(front) && IsSign(sign) && AreDigits(digits) && IsRest(sign, digits, more)
    requires value == front + sign + digits + more
    ensures ParseSize(value) ==
            var n := DecimalValue(digits);
            if digits == "" || n >= SIZE_LIMIT then 0
            else if sign == "-" then (SIZE_LIMIT - n) % SIZE_LIMIT
            else n
  {
    PartsOf(front, sign, digits, more, value);
    SizeOfParts(value, |front|, |front| + |sign|, |front| + |sign| + |digits|, digits);
  }

  lemma CountDown(n: nat)
    requires n < SIZE_LIMIT
    ensures (SIZE_LIMIT - n) % SIZE_LIMIT == if n == 0 then 0 else SIZE_LIMIT - n
  {
  }

  lemma SizeOfNumber(front: string, sign: string, digits: string, n: nat, more: string, value: string)
    requires AreSpaces(front) && IsSign(sign) && AreDigits(digits) && (more != "" ==> !IsDigit(more[0]))
    requires digits != "" && DecimalValue(digits) == n && value == front + sign + digits + more
    ensures ParseSize(value) == if n >= SIZE_LIMIT || n == 0 then 0 else if sign == "-" then SIZE_LIMIT - n else n
  {
    SizeOfText(front, sign, digits, more, value);
    if n < SIZE_LIMIT {
      CountDown(n);
    }
  }

  // White space, a sign and digits are read, and what follows them is not: a number that is too large is 0, and a
  // minus counts down from two to the power of 64.
  lemma SizeIsRead(front: string, sign: string, n: nat, more: string)
    requires AreSpaces(front) && IsSign(sign) && (more != "" ==> !IsDigit(more[0]))
    ensures ParseSize(front + sign + Decimal(n) + more) ==
            if n >= 0x1_0000_0000_0000_0000 || n == 0 then 0
            else if sign == "-" then 0x1_0000_0000_0000_0000 - n
            else n
  {
    DecimalRoundTrip(n);
    SizeOfNumber(front, sign, Decimal(n), n, more, front + sign + Decimal(n) + more);
  }

  // Without a digit behind them, white space and a sign are no number.
  lemma NoDigitsNoSize(front: string, sign: string, more: string)
    requires AreSpaces(front) && IsSign(sign) && IsRest(sign, "", more)
    ensures ParseSize(front + sign + more) == 0
  {
    assert front + sign + "" == front + sign;
    SizeOfText(front, sign, "", more, front + sign + more);
  }

  // Spaces and tabs go at the front, and newlines and carriage returns too at the end; what is between stays.
  lemma TrimIsInner(front: string, text: string, back: string)
    requires forall k :: 0 <= k < |front| ==> front[k] as int == 32 || front[k] as int == 9
    requires forall k :: 0 <= k < |back| ==>
               var code := back[k] as int; code == 32 || code == 9 || code == 10 || code == 13
    requires text != "" && text[0] != ' ' && text[0] != '\t' && !IsBlank(text[|text| - 1])
    ensures Trim(front + text + back) == text
  {
    var line := front + text + back;
    var n := |front| + |text|;
    assert forall k :: 0 <= k < |text| ==> line[|front| + k] == text[k];
    assert forall k :: 0 <= k < |front| ==> line[k] == front[k];
    assert forall k :: n <= k < |line| ==> line[k] == back[k - n] && IsBlank(line[k]);
    assert !IsBlank(line[n - 1]);
    var kept := TrimEnd(line);
    assert kept == front + text;
    assert kept[|front|..] == text && kept[|front|] == text[0];
  }
}
