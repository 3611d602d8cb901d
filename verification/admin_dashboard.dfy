/** The admin dashboard (`components/admin/admin-dashboard.tsx`): the table's
    derived cells, the edit form's single-field record update, the way each
    input turns typed text into a column value, and the row sent on save. */
module AdminDashboard {
  import opened Optional
  import opened Strings
  import opened BossModel
  import opened Aggregates
  import opened StatusDisplay
  import BossCard

  /** The columns of a `bosses` row, as `keyof Boss` names them. */
  datatype Field =
    | Id | Name | Status | StartTime | EndTime
    | LevelEmily | LevelAgent | DeathCountEmily | DeathCountAgent
    | ClipLink | OrderIndex | CreatedAt | UpdatedAt

  /** A column value, tagged with the shape of column it belongs to. */
  datatype Value =
    | Text(text: string)
    | Number(number: int)
    | MaybeText(maybeText: Option<string>)
    | MaybeNumber(maybeNumber: Option<int>)
    | MaybeStatus(maybeStatus: Option<BossStatus>)

  /** `v` has the type that column `f` declares. */
  predicate Fits(f: Field, v: Value) {
    match f
    case Id | Name => v.Text?
    case Status => v.MaybeStatus?
    case StartTime | EndTime | ClipLink | CreatedAt | UpdatedAt => v.MaybeText?
    case LevelEmily | LevelAgent | DeathCountEmily | DeathCountAgent => v.MaybeNumber?
    case OrderIndex => v.Number?
  }

  /** `boss[field]`. */
  function Get(b: Boss, f: Field): (v: Value)
    ensures Fits(f, v)
  {
    match f
    case Id => Text(b.id)
    case Name => Text(b.name)
    case Status => MaybeStatus(b.status)
    case StartTime => MaybeText(b.startTime)
    case EndTime => MaybeText(b.endTime)
    case LevelEmily => MaybeNumber(b.levelEmily)
    case LevelAgent => MaybeNumber(b.levelAgent)
    case DeathCountEmily => MaybeNumber(b.deathCountEmily)
    case DeathCountAgent => MaybeNumber(b.deathCountAgent)
    case ClipLink => MaybeText(b.clipLink)
    case OrderIndex => Number(b.orderIndex)
    case CreatedAt => MaybeText(b.createdAt)
    case UpdatedAt => MaybeText(b.updatedAt)
  }

  /** Two rows that agree on every column are the same row. */
  lemma FieldsDetermineRow(a: Boss, b: Boss)
    requires forall f :: Get(a, f) == Get(b, f)
    ensures a == b
  {
    assert Get(a, Id) == Get(b, Id);
    assert Get(a, Name) == Get(b, Name);
    assert Get(a, Status) == Get(b, Status);
    assert Get(a, StartTime) == Get(b, StartTime);
    assert Get(a, EndTime) == Get(b, EndTime);
    assert Get(a, LevelEmily) == Get(b, LevelEmily);
    assert Get(a, LevelAgent) == Get(b, LevelAgent);
    assert Get(a, DeathCountEmily) == Get(b, DeathCountEmily);
    assert Get(a, DeathCountAgent) == Get(b, DeathCountAgent);
    assert Get(a, ClipLink) == Get(b, ClipLink);
    assert Get(a, OrderIndex) == Get(b, OrderIndex);
    assert Get(a, CreatedAt) == Get(b, CreatedAt);
    assert Get(a, UpdatedAt) == Get(b, UpdatedAt);
  }

  /** `{ ...boss, [field]: value }`: the named column takes the new value
      and every other column is copied unchanged. */
  function UpdateField(b: Boss, f: Field, v: Value): (r: Boss)
    requires Fits(f, v)
    ensures Get(r, f) == v
    ensures forall g :: g != f ==> Get(r, g) == Get(b, g)
  {
    match f
    case Id => b.(id := v.text)
    case Name => b.(name := v.text)
    case Status => b.(status := v.maybeStatus)
    case StartTime => b.(startTime := v.maybeText)
    case EndTime => b.(endTime := v.maybeText)
    case LevelEmily => b.(levelEmily := v.maybeNumber)
    case LevelAgent => b.(levelAgent := v.maybeNumber)
    case DeathCountEmily => b.(deathCountEmily := v.maybeNumber)
    case DeathCountAgent => b.(deathCountAgent := v.maybeNumber)
    case ClipLink => b.(clipLink := v.maybeText)
    case OrderIndex => b.(orderIndex := v.number)
    case CreatedAt => b.(createdAt := v.maybeText)
    case UpdatedAt => b.(updatedAt := v.maybeText)
  }

  /** Writing back the value a column already holds changes nothing. */
  lemma UpdateSameValue(b: Boss, f: Field)
    ensures UpdateField(b, f, Get(b, f)) == b
  {
    FieldsDetermineRow(UpdateField(b, f, Get(b, f)), b);
  }

  /** Of two writes to the same column, the later one wins. */
  lemma UpdateLastWins(b: Boss, f: Field, v: Value, w: Value)
    requires Fits(f, v) && Fits(f, w)
    ensures UpdateField(UpdateField(b, f, v), f, w) == UpdateField(b, f, w)
  {
    FieldsDetermineRow(UpdateField(UpdateField(b, f, v), f, w), UpdateField(b, f, w));
  }

  /** Writes to different columns do not interfere, in either order. */
  lemma UpdatesCommute(b: Boss, f: Field, v: Value, g: Field, w: Value)
    requires f != g && Fits(f, v) && Fits(g, w)
    ensures UpdateField(UpdateField(b, f, v), g, w) == UpdateField(UpdateField(b, g, w), f, v)
  {
    FieldsDetermineRow(UpdateField(UpdateField(b, f, v), g, w), UpdateField(UpdateField(b, g, w), f, v));
  }

  // ---------------------------------------------------------------------
  // `parseInt(text)` and the numeric inputs

  /** The characters `parseInt` skips before the number: the white space
      and line terminators of sections 12.2 and 12.3 of ECMA-262 (2021 and
      later editions). None of them is a digit or a sign, so the skipping
      stops at the first character of a number. */
  predicate IsJsSpace(c: char)
    ensures IsJsSpace(c) ==> !IsDigit(c) && c != '-' && c != '+'
  {
    c == '\t' || c == '\n' || c == '\U{B}' || c == '\U{C}' || c == '\r' || c == ' '
    || c == '\U{A0}' || c == '\U{1680}' || ('\U{2000}' <= c <= '\U{200A}')
    || c == '\U{2028}' || c == '\U{2029}' || c == '\U{202F}' || c == '\U{205F}'
    || c == '\U{3000}' || c == '\U{FEFF}'
  }

  /** `s` with its leading white space removed. */
  function TrimStart(s: string): (r: string)
    ensures |r| <= |s| && r == s[|s| - |r|..]
    ensures forall i :: 0 <= i < |s| - |r| ==> IsJsSpace(s[i])
    ensures |r| == 0 || !IsJsSpace(r[0])
  {
    if |s| > 0 && IsJsSpace(s[0]) then
      var r := TrimStart(s[1..]);
      assert s[1..][|s| - 1 - |r|..] == s[|s| - |r|..];
      r
    else
      s
  }

  /** Trimming ignores white space put in front. */
  lemma {:induction false} TrimStartSkipsSpace(w: string, s: string)
    requires forall i :: 0 <= i < |w| ==> IsJsSpace(w[i])
    ensures TrimStart(w + s) == TrimStart(s)
  {
    if |w| > 0 {
      assert (w + s)[0] == w[0];
      assert (w + s)[1..] == w[1..] + s;
      TrimStartSkipsSpace(w[1..], s);
    } else {
      assert w + s == s;
    }
  }

  /** The value of `c` as a digit in radix 10 or 16, if it is one. */
  function RadixDigit(c: char, radix: nat): (d: Option<nat>)
    requires radix == 10 || radix == 16
    ensures d.Some? ==> d.value < radix
    ensures radix == 10 ==> (d.Some? <==> IsDigit(c))
    ensures IsDigit(c) ==> d == Some(DigitValue(c))
  {
    if IsDigit(c) then Some(DigitValue(c))
    else if radix == 16 && 'a' <= c <= 'f' then Some((c as int) - ('a' as int) + 10)
    else if radix == 16 && 'A' <= c <= 'F' then Some((c as int) - ('A' as int) + 10)
    else None
  }

  predicate AllRadixDigits(s: string, radix: nat)
    requires radix == 10 || radix == 16
  {
    forall i :: 0 <= i < |s| ==> RadixDigit(s[i], radix).Some?
  }

  /** The length of the run of radix digits at the start of `s`. */
  function DigitRun(s: string, radix: nat): (n: nat)
    requires radix == 10 || radix == 16
    ensures n <= |s|
    ensures AllRadixDigits(s[..n], radix)
    ensures n == |s| || RadixDigit(s[n], radix).None?
  {
    if |s| == 0 || RadixDigit(s[0], radix).None? then
      0
    else
      var n := DigitRun(s[1..], radix) + 1;
      assert forall i :: 1 <= i < n ==> s[..n][i] == s[1..][..n - 1][i - 1];
      n
  }

  /** The number a string of radix digits denotes. */
  function RadixValue(s: string, radix: nat): nat
    requires radix == 10 || radix == 16
    requires AllRadixDigits(s, radix)
  {
    if |s| == 0 then 0
    else RadixValue(s[..|s| - 1], radix) * radix + RadixDigit(s[|s| - 1], radix).value
  }

  /** In radix 10 the value is the ordinary decimal value. */
  lemma {:induction false} RadixValueDecimal(s: string)
    requires AllDigits(s)
    ensures AllRadixDigits(s, 10) && RadixValue(s, 10) == DigitsValue(s)
  {
    if |s| > 0 {
      RadixValueDecimal(s[..|s| - 1]);
    }
  }

  /** Whether `s` (after its sign) opens with `0x` or `0X`. */
  predicate HexPrefixed(s: string) {
    |s| >= 2 && s[0] == '0' && (s[1] == 'x' || s[1] == 'X')
  }

  /** The digits after the sign: radix 16 after `0x`/`0X`, radix 10
      otherwise, read as far as the run of digits goes. `None` when the run
      is empty. Whatever is read starts with a decimal digit, the `0` of
      the prefix included. */
  function ReadDigits(u: string): (r: Option<nat>)
    ensures r.Some? ==> |u| > 0 && IsDigit(u[0])
    ensures !HexPrefixed(u) ==> (r.Some? <==> |u| > 0 && IsDigit(u[0]))
    ensures HexPrefixed(u) ==> (r.Some? <==> |u| > 2 && RadixDigit(u[2], 16).Some?)
  {
    var radix := if HexPrefixed(u) then 16 else 10;
    var digits := if HexPrefixed(u) then u[2..] else u;
    var n := DigitRun(digits, radix);
    if n == 0 then
      None
    else
      assert !HexPrefixed(u) ==> digits[..n][0] == u[0];
      Some(RadixValue(digits[..n], radix))
  }

  /** `s` with one leading `+` or `-` removed. */
  function Unsigned(s: string): (u: string)
    ensures u == s || (|s| > 0 && u == s[1..])
  {
    if |s| > 0 && (s[0] == '-' || s[0] == '+') then s[1..] else s
  }

  /** What `parseInt` does once the white space is gone: take one optional
      sign and read the digits that follow. A number read has a decimal
      digit first or right after the sign. */
  function ParseTrimmed(s: string): (r: Option<int>)
    ensures r.Some? ==> |s| > 0 && (IsDigit(s[0]) || (|s| > 1 && IsDigit(s[1])))
    ensures r.Some? && s[0] == '-' ==> r.value <= 0
    ensures r.Some? && s[0] != '-' ==> r.value >= 0
  {
    match ReadDigits(Unsigned(s))
    case None => None
    case Some(m) =>
      var v: int := if |s| > 0 && s[0] == '-' then -(m as int) else m;
      Some(v)
  }

  /** A digit near the start of a suffix of `text` is a digit of `text`. */
  lemma DigitInSuffix(text: string, s: string)
    requires |s| <= |text| && s == text[|text| - |s|..]
    requires |s| > 0 && (IsDigit(s[0]) || (|s| > 1 && IsDigit(s[1])))
    ensures exists i :: 0 <= i < |text| && IsDigit(text[i])
  {
    var k := |text| - |s|;
    if IsDigit(s[0]) {
      assert text[k] == s[0];
    } else {
      assert text[k + 1] == s[1];
    }
  }

  /** `parseInt(text)` without a radix: skip leading white space, take one
      optional sign, switch to radix 16 after `0x`/`0X`, and read the longest
      run of digits. `None` is `NaN`: there were no digits to read. */
  function ParseInt(text: string): (r: Option<int>)
    ensures r.Some? ==> exists i :: 0 <= i < |text| && IsDigit(text[i])
  {
    var r := ParseTrimmed(TrimStart(text));
    if r.Some? then
      DigitInSuffix(text, TrimStart(text));
      r
    else
      r
  }

  /** The run of decimal digits at the start of `d + rest` is `d`. */
  lemma {:induction false} DecimalRun(d: string, rest: string)
    requires AllDigits(d)
    requires |rest| == 0 || !IsDigit(rest[0])
    ensures DigitRun(d + rest, 10) == |d|
  {
    if |d| == 0 {
      assert d + rest == rest;
    } else {
      assert (d + rest)[0] == d[0];
      assert (d + rest)[1..] == d[1..] + rest;
      DecimalRun(d[1..], rest);
    }
  }

  /** A run of decimal digits that is followed by a non-digit, and is not a
      `0x` prefix, is read in full and no further. */
  lemma ReadDecimal(d: string, rest: string)
    requires |d| > 0 && AllDigits(d)
    requires |rest| == 0 || !IsDigit(rest[0])
    requires !HexPrefixed(d + rest)
    ensures ReadDigits(d + rest) == Some(DigitsValue(d))
  {
    var s := d + rest;
    DecimalRun(d, rest);
    assert s[..|d|] == d;
    RadixValueDecimal(d);
  }

  /** `parseInt` reads back the decimal text of every integer. */
  lemma ParseIntRoundTrip(n: int)
    ensures ParseInt(IntToString(n)) == Some(n)
  {
    if n < 0 {
      ParseNegative(NatToString(-n));
    } else {
      var d := NatToString(n);
      assert d + "" == d;
      ParseIntStopsAtNonDigit(d, "");
    }
  }

  /** A minus sign before decimal digits negates their value. */
  lemma ParseNegative(d: string)
    requires |d| > 0 && AllDigits(d) && !HexPrefixed(d)
    ensures ParseInt("-" + d) == Some(-(DigitsValue(d) as int))
  {
    var t := "-" + d;
    MinusFirst(t);
    assert t[1..] == d;
    ReadAllDecimal(d);
    NegativeTrimmed(d, t);
    ParseIntIsTrimmed(t);
  }

  /** `parseInt` is the reading of the trimmed text. */
  lemma ParseIntIsTrimmed(text: string)
    ensures ParseInt(text) == ParseTrimmed(TrimStart(text))
  {
  }

  /** Decimal digits with nothing after them are read in full. */
  lemma ReadAllDecimal(d: string)
    requires |d| > 0 && AllDigits(d) && !HexPrefixed(d)
    ensures ReadDigits(d) == Some(DigitsValue(d))
  {
    assert d + "" == d;
    ReadDecimal(d, "");
  }

  /** A number read after a `-` is negated. */
  lemma NegativeTrimmed(d: string, t: string)
    requires AllDigits(d) && Unsigned(t) == d && |t| > 0 && t[0] == '-'
    requires ReadDigits(d) == Some(DigitsValue(d))
    ensures ParseTrimmed(t) == Some(-(DigitsValue(d) as int))
  {
  }

  /** Text that opens with `-` is not trimmed, and loses the sign. */
  lemma MinusFirst(t: string)
    requires |t| > 0 && t[0] == '-'
    ensures TrimStart(t) == t && Unsigned(t) == t[1..]
  {
    NothingToTrim(t);
  }

  /** White space in front of the number is skipped. */
  lemma ParseIntSkipsSpace(w: string, text: string)
    requires forall i :: 0 <= i < |w| ==> IsJsSpace(w[i])
    ensures ParseInt(w + text) == ParseInt(text)
  {
    TrimStartSkipsSpace(w, text);
  }

  /** Reading stops at the first character that is not a digit, so `12.5`
      and `3e2` give 12 and 3; a leading `0x` is the one exception. */
  lemma ParseIntStopsAtNonDigit(d: string, rest: string)
    requires |d| > 0 && AllDigits(d)
    requires |rest| == 0 || !IsDigit(rest[0])
    requires !HexPrefixed(d + rest)
    ensures ParseInt(d + rest) == Some(DigitsValue(d))
  {
    DigitFirst(d + rest);
    ReadDecimal(d, rest);
  }

  /** Text that opens with a digit is neither trimmed nor unsigned. */
  lemma DigitFirst(s: string)
    requires |s| > 0 && IsDigit(s[0])
    ensures TrimStart(s) == s && Unsigned(s) == s
  {
    assert !IsJsSpace(s[0]) && s[0] != '-' && s[0] != '+';
    NothingToTrim(s);
  }

  /** Text that does not open with white space is left as it is. */
  lemma NothingToTrim(s: string)
    requires |s| == 0 || !IsJsSpace(s[0])
    ensures TrimStart(s) == s
  {
  }

  /** Text with no digits to read is `NaN`, which the inputs turn into 0. */
  lemma ParseIntNoDigits()
    ensures ParseInt("") == None && ParseInt("-") == None && ParseInt("0x") == None
    ensures NumericInput("") == 0
  {
    assert TrimStart("-") == "-";
    assert Unsigned("-") == "";
    assert TrimStart("0x") == "0x";
    assert "0x"[2..] == "";
  }

  /** `parseInt(e.target.value) || 0`: what the level and death inputs
      store. Text that is not a number stores 0, and so does `-0`. */
  function NumericInput(text: string): (n: int)
    ensures ParseInt(text).None? ==> n == 0
    ensures ParseInt(text).Some? ==> n == ParseInt(text).value
  {
    OrZero(ParseInt(text))
  }

  // ---------------------------------------------------------------------
  // The edit form

  /** The three entries of the status selector, in order. */
  const StatusItems: seq<string> := ["Not Started", "In Progress", "Completed"]

  /** `boss.status || "Not Started"`: the entry the selector shows. It is
      always one of the three entries, and names the stored status or, for
      null, Not Started. */
  function SelectedStatus(b: Boss): (entry: string)
    ensures entry in StatusItems
    ensures ParseStatus(entry) == Some(b.status.GetOr(NotStarted))
  {
    ShownStatus(b.status)
  }

  /** Picking an entry of the selector: the status becomes the one picked
      and nothing else changes. */
  function ChooseStatus(b: Boss, s: BossStatus): (r: Boss)
    ensures r.status == Some(s)
    ensures SelectedStatus(r) == StatusLabel(s)
    ensures forall g :: g != Status ==> Get(r, g) == Get(b, g)
  {
    UpdateField(b, Status, MaybeStatus(Some(s)))
  }

  /** Picking the entry already shown is a no-op exactly when the stored
      status is not null; a null status becomes an explicit Not Started. */
  lemma ChooseShownStatus(b: Boss)
    ensures ChooseStatus(b, b.status.GetOr(NotStarted)) == b <==> b.status.Some?
  {
    if b.status.Some? {
      UpdateSameValue(b, Status);
    }
  }

  /** The columns the form edits through a text box. */
  predicate IsTextInput(f: Field) {
    f == ClipLink || f == StartTime || f == EndTime
  }

  /** `boss.<field> || ""`: what a text box shows. */
  function InputText(b: Boss, f: Field): (t: string)
    requires IsTextInput(f)
    ensures Get(b, f).maybeText.Some? ==> t == Get(b, f).maybeText.value
    ensures Get(b, f).maybeText.None? ==> t == ""
  {
    Get(b, f).maybeText.GetOr("")
  }

  /** Typing into a text box stores the typed text, empty text included, and
      nothing else changes. */
  function EditText(b: Boss, f: Field, text: string): (r: Boss)
    requires IsTextInput(f)
    ensures Get(r, f) == MaybeText(Some(text))
    ensures InputText(r, f) == text
    ensures forall g :: g != f ==> Get(r, g) == Get(b, g)
  {
    UpdateField(b, f, MaybeText(Some(text)))
  }

  /** Typing back what the box shows changes nothing, unless the column was
      null: then it becomes the empty string. */
  lemma EditShownText(b: Boss, f: Field)
    requires IsTextInput(f)
    ensures EditText(b, f, InputText(b, f)) == b <==> Get(b, f).maybeText.Some?
  {
    if Get(b, f).maybeText.Some? {
      UpdateSameValue(b, f);
    }
  }

  /** The columns the form edits through a number box. */
  predicate IsNumberInput(f: Field) {
    f == LevelEmily || f == LevelAgent || f == DeathCountEmily || f == DeathCountAgent
  }

  /** `boss.<field> || 0`: what a number box shows. */
  function InputNumber(b: Boss, f: Field): (n: int)
    requires IsNumberInput(f)
    ensures Get(b, f).maybeNumber.Some? ==> n == Get(b, f).maybeNumber.value
    ensures Get(b, f).maybeNumber.None? ==> n == 0
  {
    OrZero(Get(b, f).maybeNumber)
  }

  /** Typing into a number box stores `parseInt(text) || 0`; the column is
      never null afterwards, and nothing else changes. */
  function EditNumber(b: Boss, f: Field, text: string): (r: Boss)
    requires IsNumberInput(f)
    ensures Get(r, f) == MaybeNumber(Some(NumericInput(text)))
    ensures InputNumber(r, f) == NumericInput(text)
    ensures forall g :: g != f ==> Get(r, g) == Get(b, g)
  {
    UpdateField(b, f, MaybeNumber(Some(NumericInput(text))))
  }

  /** Typing the decimal text of `n` stores `n`. */
  lemma EditNumberRoundTrip(b: Boss, f: Field, n: int)
    requires IsNumberInput(f)
    ensures InputNumber(EditNumber(b, f, IntToString(n)), f) == n
  {
    ParseIntRoundTrip(n);
  }

  /** Typing back the number the box shows changes nothing, unless the
      column was null: then it becomes an explicit 0. */
  lemma EditShownNumber(b: Boss, f: Field)
    requires IsNumberInput(f)
    ensures EditNumber(b, f, IntToString(InputNumber(b, f))) == b <==> Get(b, f).maybeNumber.Some?
  {
    var n := InputNumber(b, f);
    var r := EditNumber(b, f, IntToString(n));
    EditNumberStoresValue(b, f, n, r);
    if Get(b, f).maybeNumber.Some? {
      assert Get(b, f) == MaybeNumber(Some(n));
      UpdateSameValue(b, f);
    } else {
      assert Get(r, f) != Get(b, f);
    }
  }

  /** Typing the decimal text of `n` is writing `n` into the column. */
  lemma EditNumberStoresValue(b: Boss, f: Field, n: int, r: Boss)
    requires IsNumberInput(f)
    requires r == EditNumber(b, f, IntToString(n))
    ensures r == UpdateField(b, f, MaybeNumber(Some(n)))
    ensures Get(r, f) == MaybeNumber(Some(n))
  {
    ParseIntRoundTrip(n);
  }

  /** `{ ...boss, updated_at: now }`: the row handed to the database update,
      matched on the unchanged `id`. */
  function SavePayload(b: Boss, now: string): (r: Boss)
    ensures r.updatedAt == Some(now)
    ensures r.id == b.id
    ensures forall g :: g != UpdatedAt ==> Get(r, g) == Get(b, g)
  {
    UpdateField(b, UpdatedAt, MaybeText(Some(now)))
  }

  /** Saving again only refreshes the timestamp. */
  lemma SaveTwice(b: Boss, t1: string, t2: string)
    ensures SavePayload(SavePayload(b, t1), t2) == SavePayload(b, t2)
  {
    UpdateLastWins(b, UpdatedAt, MaybeText(Some(t1)), MaybeText(Some(t2)));
  }

  /** Opening the form on a row with a null status and saving it untouched
      keeps the status null, although the selector showed Not Started. */
  lemma UntouchedNullStatusStaysNull(b: Boss, now: string)
    requires b.status.None?
    ensures SelectedStatus(b) == "Not Started"
    ensures SavePayload(b, now).status.None?
  {
    assert Get(SavePayload(b, now), Status) == Get(b, Status);
  }

  // ---------------------------------------------------------------------
  // The table

  /** The status badge: its text and its style. */
  datatype Badge = Badge(text: string, style: StatusStyle)

  /** `getStatusColor(boss.status)` with `boss.status || "Not Started"`: the
      text names the stored status (Not Started for null), and the style is
      the default one exactly when the text says Not Started. */
  function StatusBadge(b: Boss): (badge: Badge)
    ensures ParseStatus(badge.text) == Some(b.status.GetOr(NotStarted))
    ensures badge.style == DefaultStyle <==> badge.text == "Not Started"
    ensures badge.style == CompletedStyle <==> badge.text == "Completed"
    ensures badge.style == InProgressStyle <==> badge.text == "In Progress"
  {
    StyleMatchesShownText(b.status);
    Badge(ShownStatus(b.status), StatusStyleOf(b.status))
  }

  /** The Battle Time cell: `start - end` when both times are non-empty,
      `-` otherwise. */
  function BattleTime(b: Boss): (cell: string)
    ensures cell == "-" <==> b.startTime.None? || b.endTime.None? || b.startTime.value == "" || b.endTime.value == ""
    ensures cell != "-" ==> cell == b.startTime.value + " - " + b.endTime.value
  {
    if b.startTime.None? || b.endTime.None? || b.startTime.value == "" || b.endTime.value == "" then
      "-"
    else
      var cell := b.startTime.value + " - " + b.endTime.value;
      assert |cell| > 1;
      cell
  }

  /** The table shows a battle time exactly when the boss card shows a
      duration: both treat a null and an empty time alike. */
  lemma BattleTimeMatchesDuration(b: Boss)
    requires BossCard.TimeReadable(b.startTime) && BossCard.TimeReadable(b.endTime)
    ensures BattleTime(b) == "-" <==> BossCard.FormatDuration(b.startTime, b.endTime).None?
  {
  }

  /** Clearing a time box stores `""`, which the table and the card treat as
      a missing time. */
  lemma ClearedTimeIsMissing(b: Boss, f: Field)
    requires f == StartTime || f == EndTime
    requires BossCard.TimeReadable(b.startTime) && BossCard.TimeReadable(b.endTime)
    ensures BattleTime(EditText(b, f, "")) == "-"
    ensures BossCard.FormatDuration(EditText(b, f, "").startTime, EditText(b, f, "").endTime).None?
  {
    var r := EditText(b, f, "");
    assert Get(r, f) == MaybeText(Some(""));
    assert f == StartTime ==> r.startTime == Some("") && r.endTime == b.endTime;
    assert f == EndTime ==> r.endTime == Some("") && r.startTime == b.startTime;
  }

  /** A death cell: `boss.death_count_<player> || 0`. */
  function DeathCell(b: Boss, p: Player): (n: int)
    ensures b.DeathCount(p).Some? ==> n == b.DeathCount(p).value
    ensures b.DeathCount(p).None? ==> n == 0
  {
    OrZero(b.DeathCount(p))
  }

  /** The death cells of one player, row by row. */
  function DeathColumn(bosses: seq<Boss>, p: Player): (col: seq<int>)
    ensures |col| == |bosses|
    ensures forall i :: 0 <= i < |bosses| ==> col[i] == DeathCell(bosses[i], p)
  {
    seq(|bosses|, i requires 0 <= i < |bosses| => DeathCell(bosses[i], p))
  }

  /** The table's death cells agree with the boss card's figures and add up
      to the per-player death total of the landing page. */
  lemma {:induction false} DeathColumnTotal(bosses: seq<Boss>, p: Player)
    ensures forall i :: 0 <= i < |bosses| ==> DeathColumn(bosses, p)[i] == BossCard.CardFigures(bosses[i], p).1
    ensures Sum(DeathColumn(bosses, p)) == DeathSum(bosses, p)
    decreases |bosses|
  {
    if |bosses| > 0 {
      DeathColumnTotal(bosses[1..], p);
      assert DeathColumn(bosses, p)[1..] == DeathColumn(bosses[1..], p);
    }
  }
}
