/**
  The logic of one task row: the "time left" text and which lines and buttons
  the row shows for its tab and the display settings.

  The row's completion animation (the `isCompleting` flag, set when the
  complete button is pressed and cleared by the parent after a delay) is an
  input here; the delay itself is not modelled.
*/
module TodoItem {
  import opened TodoTypes

  // ---------------------------------------------------------------------------
  // Decimal rendering of non-negative integers, as template literals print them

  predicate IsDigit(c: char) {
    '0' <= c <= '9'
  }

  predicate AllDigits(s: string) {
    forall k :: 0 <= k < |s| ==> IsDigit(s[k])
  }

  function DigitChar(d: nat): (c: char)
    requires d < 10
    ensures IsDigit(c) && (c == '0' <==> d == 0)
  {
    (48 + d) as char
  }

  function DigitValue(c: char): nat
    requires IsDigit(c)
  {
    c as int - 48
  }

  /** A digit's value printed as a digit is that digit. */
  lemma DigitCharOfValue(c: char)
    requires IsDigit(c)
    ensures DigitChar(DigitValue(c)) == c
  {
    assert 48 + DigitValue(c) == c as int;
  }

  /** `${n}` for a non-negative integer `n`: its digits, without leading zeros. */
  function DecimalString(n: nat): (s: string)
    ensures |s| >= 1 && AllDigits(s)
    ensures s[0] == '0' <==> n == 0
    ensures s[0] == '0' ==> |s| == 1
  {
    if n < 10 then [DigitChar(n)] else DecimalString(n / 10) + [DigitChar(n % 10)]
  }

  /** The number a string of digits denotes. */
  function DecimalValue(s: string): nat
    requires AllDigits(s)
  {
    if s == [] then 0 else DecimalValue(s[..|s| - 1]) * 10 + DigitValue(s[|s| - 1])
  }

  /** Reading the digits back gives the number that was printed. */
  lemma {:induction false} DecimalRoundTrip(n: nat)
    ensures DecimalValue(DecimalString(n)) == n
  {
    var s := DecimalString(n);
    if n < 10 {
      assert s[..|s| - 1] == [];
    } else {
      DecimalRoundTrip(n / 10);
      assert s[..|s| - 1] == DecimalString(n / 10);
    }
  }

  /** The length of the run of digits that starts `s`. */
  function LeadingDigits(s: string): (k: nat)
    ensures k <= |s| && AllDigits(s[..k])
    ensures k < |s| ==> !IsDigit(s[k])
  {
    if s == [] || !IsDigit(s[0]) then 0 else 1 + LeadingDigits(s[1..])
  }

  lemma {:induction false} LeadingDigitsOfConcat(digits: string, rest: string)
    requires AllDigits(digits)
    requires rest != [] && !IsDigit(rest[0])
    ensures LeadingDigits(digits + rest) == |digits|
  {
    if digits != [] {
      assert (digits + rest)[1..] == digits[1..] + rest;
      LeadingDigitsOfConcat(digits[1..], rest);
    }
  }

  /** A non-empty string of digits with no leading zero. */
  predicate NoLeadingZero(s: string) {
    |s| >= 1 && AllDigits(s) && (s[0] == '0' ==> |s| == 1)
  }

  /** A string of digits with a non-zero first digit denotes a positive number. */
  lemma {:induction false} DecimalValuePositive(s: string)
    requires |s| >= 1 && AllDigits(s) && s[0] != '0'
    ensures DecimalValue(s) >= 1
  {
    var p := s[..|s| - 1];
    if |s| == 1 {
      assert p == [];
    } else {
      assert p[0] == s[0];
      DecimalValuePositive(p);
    }
  }

  /** Printing the value of digits without a leading zero gives those digits back. */
  lemma {:induction false} DecimalStringOfValue(s: string)
    requires NoLeadingZero(s)
    ensures DecimalString(DecimalValue(s)) == s
  {
    var n := DecimalValue(s);
    var p := s[..|s| - 1];
    var d := DigitValue(s[|s| - 1]);
    if |s| == 1 {
      assert p == [];
      assert n == d;
      DigitCharOfValue(s[0]);
    } else {
      assert p[0] == s[0];
      DecimalValuePositive(p);
      DecimalStringOfValue(p);
      assert n / 10 == DecimalValue(p) && n % 10 == d;
      DigitCharOfValue(s[|s| - 1]);
      assert s == p + [s[|s| - 1]];
    }
  }

  // ---------------------------------------------------------------------------
  // The "time left" text

  /**
    Whole hours and the whole minutes past them in `timeLeft` milliseconds:
    `Math.floor(timeLeft / 3600000)` and `Math.floor((timeLeft % 3600000) / 60000)`.
    With `timeLeft` positive, Dafny's Euclidean `/` and `%` agree with those.
  */
  function SplitTimeLeft(timeLeft: int): (hm: (nat, nat))
    requires timeLeft > 0
    ensures hm.1 < 60
    ensures hm.0 > 0 <==> timeLeft >= HOUR_MS
    ensures hm.0 * HOUR_MS + hm.1 * MINUTE_MS <= timeLeft < hm.0 * HOUR_MS + (hm.1 + 1) * MINUTE_MS
  {
    (timeLeft / HOUR_MS, (timeLeft % HOUR_MS) / MINUTE_MS)
  }

  /** Only one pair of hours and minutes brackets a given duration. */
  lemma SplitUnique(timeLeft: int, h: nat, m: nat)
    requires timeLeft > 0 && m < 60
    requires h * HOUR_MS + m * MINUTE_MS <= timeLeft < h * HOUR_MS + (m + 1) * MINUTE_MS
    ensures SplitTimeLeft(timeLeft) == (h, m)
  {
    assert (m + 1) * MINUTE_MS <= HOUR_MS;
    assert timeLeft / HOUR_MS == h;
    assert timeLeft % HOUR_MS == timeLeft - h * HOUR_MS;
  }

  /** "⟨h⟩h ⟨m⟩m left" when there is at least an hour, "⟨m⟩m left" otherwise. */
  function RemainingText(hours: nat, minutes: nat): string {
    if hours > 0 then DecimalString(hours) + "h " + DecimalString(minutes) + "m left"
    else DecimalString(minutes) + "m left"
  }

  /** Reads "⟨m⟩m left" back into its minutes; None if `text` is not of that form. */
  function ParseMinutes(text: string): Option<nat> {
    var b := LeadingDigits(text);
    if b > 0 && text[b..] == "m left" then Some(DecimalValue(text[..b])) else None
  }

  /** Reads a "time left" text back into hours and minutes; None if it has neither form. */
  function ParseRemaining(text: string): Option<(nat, nat)> {
    var a := LeadingDigits(text);
    if a == 0 then None
    else if text[a..] == "m left" then Some((0, DecimalValue(text[..a])))
    else if a + 2 <= |text| && text[a..a + 2] == "h " then
      match ParseMinutes(text[a + 2..])
      case Some(m) => Some((DecimalValue(text[..a]), m))
      case None => None
    else None
  }

  /** A minutes text parses to its minutes. */
  lemma ParseMinutesOf(dm: string)
    requires |dm| >= 1 && AllDigits(dm)
    ensures ParseMinutes(dm + "m left") == Some(DecimalValue(dm))
  {
    var text := dm + "m left";
    LeadingDigitsOfConcat(dm, "m left");
    assert text[..|dm|] == dm;
    assert text[|dm|..] == "m left";
  }

  /** A minutes-only text parses to zero hours and its minutes. */
  lemma ParseMinutesForm(dm: string)
    requires |dm| >= 1 && AllDigits(dm)
    ensures ParseRemaining(dm + "m left") == Some((0, DecimalValue(dm)))
  {
    var text := dm + "m left";
    LeadingDigitsOfConcat(dm, "m left");
    assert text[..|dm|] == dm;
    assert text[|dm|..] == "m left";
  }

  /** The digits of an hours text, followed by "h ", and the rest after them. */
  lemma HoursPrefix(dh: string, rest: string)
    requires |dh| >= 1 && AllDigits(dh)
    ensures var text := dh + "h " + rest;
      && LeadingDigits(text) == |dh|
      && text[..|dh|] == dh
      && text[|dh|..] != "m left"
      && |dh| + 2 <= |text| && text[|dh|..|dh| + 2] == "h "
      && text[|dh| + 2..] == rest
  {
    var text := dh + "h " + rest;
    assert text == dh + ("h " + rest);
    LeadingDigitsOfConcat(dh, "h " + rest);
    assert text[|dh|] == 'h';
  }

  /** An hours-and-minutes text parses to its hours and its minutes. */
  lemma ParseHoursForm(dh: string, dm: string)
    requires |dh| >= 1 && AllDigits(dh)
    requires |dm| >= 1 && AllDigits(dm)
    ensures ParseRemaining(dh + "h " + dm + "m left") == Some((DecimalValue(dh), DecimalValue(dm)))
  {
    var rest := dm + "m left";
    assert dh + "h " + dm + "m left" == dh + "h " + rest;
    HoursPrefix(dh, rest);
    ParseMinutesOf(dm);
  }

  /** The text reads back as the hours and minutes it was made from. */
  lemma RemainingTextRoundTrip(hours: nat, minutes: nat)
    ensures ParseRemaining(RemainingText(hours, minutes)) == Some((hours, minutes))
  {
    var dm := DecimalString(minutes);
    DecimalRoundTrip(minutes);
    if hours > 0 {
      var dh := DecimalString(hours);
      DecimalRoundTrip(hours);
      assert RemainingText(hours, minutes) == dh + "h " + dm + "m left";
      ParseHoursForm(dh, dm);
    } else {
      assert RemainingText(hours, minutes) == dm + "m left";
      ParseMinutesForm(dm);
    }
  }

  /** The text has an hours part exactly when there is at least one whole hour. */
  lemma HoursPartShown(hours: nat, minutes: nat)
    ensures 'h' in RemainingText(hours, minutes) <==> hours > 0
  {
    var text := RemainingText(hours, minutes);
    var dm := DecimalString(minutes);
    if hours > 0 {
      var dh := DecimalString(hours);
      assert text[|dh|] == 'h';
    } else {
      assert text == dm + "m left";
      forall k | 0 <= k < |text| ensures text[k] != 'h' {
        if k < |dm| {
          assert IsDigit(dm[k]);
        } else {
          assert text[k] == "m left"[k - |dm|];
        }
      }
    }
  }

  /**
    Every run of digits in `text` is a single "0" or starts with a non-zero
    digit: a '0' that begins a run also ends it.
  */
  predicate CanonicalDigits(text: string) {
    forall k :: 0 <= k < |text| ==> ZeroRunEndsAt(text, k)
  }

  /** A '0' at `k` that begins a run of digits is also the end of it. */
  predicate ZeroRunEndsAt(text: string, k: nat)
    requires k < |text|
  {
    text[k] == '0' && (k == 0 || !IsDigit(text[k - 1])) ==> k + 1 == |text| || !IsDigit(text[k + 1])
  }

  /** Non-digits in front of a canonical text keep it canonical. */
  lemma CanonicalAfterSeparator(sep: string, rest: string)
    requires forall k :: 0 <= k < |sep| ==> !IsDigit(sep[k])
    requires CanonicalDigits(rest)
    ensures CanonicalDigits(sep + rest)
  {
    var text := sep + rest;
    forall k | 0 <= k < |text| ensures ZeroRunEndsAt(text, k) {
      if k < |sep| {
        assert text[k] == sep[k];
      } else {
        var j := k - |sep|;
        assert ZeroRunEndsAt(rest, j);
        assert text[k] == rest[j];
        assert j > 0 ==> text[k - 1] == rest[j - 1];
        assert k + 1 < |text| ==> text[k + 1] == rest[j + 1];
      }
    }
  }

  /** Digits without a leading zero, then a non-digit or nothing, then a canonical text. */
  lemma CanonicalAfterRun(digits: string, rest: string)
    requires NoLeadingZero(digits)
    requires rest == [] || !IsDigit(rest[0])
    requires CanonicalDigits(rest)
    ensures CanonicalDigits(digits + rest)
  {
    var text := digits + rest;
    forall k | 0 <= k < |text| ensures ZeroRunEndsAt(text, k) {
      if k < |digits| {
        assert text[k] == digits[k];
        assert k > 0 ==> text[k - 1] == digits[k - 1];
        assert k + 1 == |digits| < |text| ==> text[k + 1] == rest[0];
      } else if k == |digits| {
        assert text[k] == rest[0];
      } else {
        var j := k - |digits|;
        assert ZeroRunEndsAt(rest, j);
        assert text[k] == rest[j];
        assert text[k - 1] == rest[j - 1];
        assert k + 1 < |text| ==> text[k + 1] == rest[j + 1];
      }
    }
  }

  /** The "time left" text prints each number without leading zeros. */
  lemma RemainingTextCanonical(hours: nat, minutes: nat)
    ensures CanonicalDigits(RemainingText(hours, minutes))
  {
    var dm := DecimalString(minutes);
    CanonicalAfterSeparator("m left", []);
    assert "m left" + [] == "m left";
    CanonicalAfterRun(dm, "m left");
    if hours > 0 {
      var dh := DecimalString(hours);
      CanonicalAfterSeparator("h ", dm + "m left");
      CanonicalAfterRun(dh, "h " + (dm + "m left"));
      assert RemainingText(hours, minutes) == dh + ("h " + (dm + "m left"));
    }
  }

  /** In a canonical text, a run of digits that begins at `k` has no leading zero. */
  lemma CanonicalRunAt(text: string, k: nat)
    requires CanonicalDigits(text)
    requires k < |text| && (k == 0 || !IsDigit(text[k - 1]))
    requires LeadingDigits(text[k..]) >= 1
    ensures NoLeadingZero(text[k..][..LeadingDigits(text[k..])])
  {
    var t := text[k..];
    assert t[0] == text[k];
    assert t[1..] == text[k + 1..];
    if k + 1 < |text| {
      assert t[1..][0] == text[k + 1];
    }
    assert ZeroRunEndsAt(text, k);
    assert text[k] == '0' ==> LeadingDigits(t[1..]) == 0;
  }

  /** The part of a canonical text after a non-digit is canonical. */
  lemma CanonicalSuffix(text: string, k: nat)
    requires CanonicalDigits(text)
    requires k <= |text| && (k == 0 || !IsDigit(text[k - 1]))
    ensures CanonicalDigits(text[k..])
  {
    var t := text[k..];
    forall j | 0 <= j < |t| ensures ZeroRunEndsAt(t, j) {
      assert ZeroRunEndsAt(text, k + j);
      assert t[j] == text[k + j];
      assert j > 0 ==> t[j - 1] == text[k + j - 1];
      assert j + 1 < |t| ==> t[j + 1] == text[k + j + 1];
    }
  }

  /** The run of digits a canonical text starts with has no leading zero. */
  lemma CanonicalHeadRun(text: string)
    requires CanonicalDigits(text)
    requires LeadingDigits(text) >= 1
    ensures NoLeadingZero(text[..LeadingDigits(text)])
  {
    assert text[0..] == text;
    CanonicalRunAt(text, 0);
  }

  /** A canonical minutes-only text is the rendering of its minutes. */
  lemma MinutesFormPinned(text: string)
    requires CanonicalDigits(text)
    requires LeadingDigits(text) >= 1 && text[LeadingDigits(text)..] == "m left"
    ensures text == RemainingText(0, DecimalValue(text[..LeadingDigits(text)]))
  {
    var a := LeadingDigits(text);
    CanonicalHeadRun(text);
    DecimalStringOfValue(text[..a]);
    assert text == text[..a] + text[a..];
  }

  /** Hours without a leading zero, "h ", then a canonical minutes text: the rendering of both. */
  lemma HoursFormPinned(dh: string, rest: string, h: nat, m: nat)
    requires NoLeadingZero(dh) && h == DecimalValue(dh) && h > 0
    requires CanonicalDigits(rest)
    requires LeadingDigits(rest) >= 1 && rest[LeadingDigits(rest)..] == "m left"
    requires m == DecimalValue(rest[..LeadingDigits(rest)])
    ensures dh + "h " + rest == RemainingText(h, m)
  {
    DecimalStringOfValue(dh);
    MinutesFormPinned(rest);
    assert dh + "h " + rest == dh + "h " + (DecimalString(m) + "m left");
  }

  /**
    `text` names whole hours and whole minutes (under 60) that together are
    the largest whole-minute amount not exceeding `timeLeft`.
  */
  predicate ReadsAsTimeLeft(text: string, timeLeft: int) {
    var parsed := ParseRemaining(text);
    && parsed.Some?
    && parsed.value.1 < 60
    && parsed.value.0 * HOUR_MS + parsed.value.1 * MINUTE_MS <= timeLeft
    && timeLeft < parsed.value.0 * HOUR_MS + (parsed.value.1 + 1) * MINUTE_MS
  }

  /**
    `formatTimeRemaining`: nothing for a row that is not on the Active tab or
    whose task is completed, nothing once the deadline has passed, otherwise
    the time left in hours and minutes.
  */
  function FormatTimeRemaining(todo: Todo, status: Status, now: int): (r: Option<string>)
    ensures r.Some? <==> status == Active && !todo.completed && todo.expiresAt - now > 0
    ensures r.Some? ==> ReadsAsTimeLeft(r.value, todo.expiresAt - now)
    ensures r.Some? ==> ('h' in r.value <==> todo.expiresAt - now >= HOUR_MS)
    ensures r.Some? ==> CanonicalDigits(r.value)
  {
    if status != Active || todo.completed then None
    else
      var timeLeft := todo.expiresAt - now;
      if timeLeft <= 0 then None
      else
        var hm := SplitTimeLeft(timeLeft);
        RemainingTextRoundTrip(hm.0, hm.1);
        HoursPartShown(hm.0, hm.1);
        RemainingTextCanonical(hm.0, hm.1);
        Some(RemainingText(hm.0, hm.1))
  }

  /**
    The promises of `FormatTimeRemaining` determine its text: a canonical
    text that reads as `timeLeft` and has an hours part exactly when there
    is a whole hour is the one rendering of the split of `timeLeft`.
  */
  lemma TimeLeftTextUnique(text: string, timeLeft: int)
    requires timeLeft > 0 && ReadsAsTimeLeft(text, timeLeft) && CanonicalDigits(text)
    requires 'h' in text <==> timeLeft >= HOUR_MS
    ensures text == RemainingText(SplitTimeLeft(timeLeft).0, SplitTimeLeft(timeLeft).1)
  {
    var hm := ParseRemaining(text).value;
    SplitUnique(timeLeft, hm.0, hm.1);
    var a := LeadingDigits(text);
    if text[a..] == "m left" {
      MinutesFormPinned(text);
    } else {
      var dh := text[..a];
      var rest := text[a + 2..];
      assert text[a] == text[a..a + 2][0] == 'h';
      assert text[a + 1] == text[a..a + 2][1] == ' ';
      CanonicalHeadRun(text);
      CanonicalSuffix(text, a + 2);
      assert text == dh + text[a..a + 2] + rest;
      HoursFormPinned(dh, rest, hm.0, hm.1);
    }
  }

  // ---------------------------------------------------------------------------
  // What a row shows

  /**
    The visible parts of a row: whether its title is struck through and
    carries the recurring mark, its buttons, the "time left" span and its
    text, the timestamp printed on the "Completed:" or "Expired:" line, and
    whether the row can be dragged.
  */
  datatype RowView = RowView(
    titleStruck: bool,
    recurringMark: bool,
    completeButton: bool,
    toggleRepeatButton: bool,
    resetButton: bool,
    readdButton: bool,
    deleteButton: bool,
    remainingSpan: bool,
    remainingText: Option<string>,
    completedLine: Option<int>,
    expiredLine: Option<int>,
    draggable: bool)

  /**
    The row of `todo` rendered on tab `status` at time `now`, with the three
    display settings and whether its completion animation is running.
  */
  function Row(todo: Todo, status: Status, now: int, showTimeRemaining: bool, showTimeCompleted: bool,
               showTimeExpired: bool, isCompleting: bool): (v: RowView)
    ensures v.completeButton <==> status == Active
    ensures v.toggleRepeatButton == v.resetButton
    ensures v.resetButton <==> status == Active && !isCompleting
    ensures v.readdButton <==> status == Completed || status == Expired
    ensures v.readdButton <==> !v.completeButton
    ensures v.deleteButton <==> !isCompleting
    ensures v.remainingSpan <==> status == Active && !todo.completed && showTimeRemaining
    ensures v.remainingText.Some? ==> v.remainingSpan && ReadsAsTimeLeft(v.remainingText.value, todo.expiresAt - now)
    ensures v.completedLine.Some? <==> status == Completed && Truthy(todo.completedAt) && showTimeCompleted
    ensures v.completedLine.Some? ==> v.completedLine == todo.completedAt
    ensures v.expiredLine.Some? <==> status == Expired && showTimeExpired
    ensures v.expiredLine.Some? ==> v.expiredLine.value == todo.expiresAt
    ensures v.titleStruck == todo.completed && v.recurringMark == todo.isRecurring
    ensures v.draggable <==> v.resetButton
  {
    var span := status == Active && !todo.completed && showTimeRemaining;
    RowView(
      titleStruck := todo.completed,
      recurringMark := todo.isRecurring,
      completeButton := status == Active,
      toggleRepeatButton := status == Active && !isCompleting,
      resetButton := status == Active && !isCompleting,
      readdButton := status == Completed || status == Expired,
      deleteButton := !isCompleting,
      remainingSpan := span,
      remainingText := if span then FormatTimeRemaining(todo, status, now) else None,
      completedLine := if status == Completed && Truthy(todo.completedAt) && showTimeCompleted
                       then todo.completedAt else None,
      expiredLine := if status == Expired && showTimeExpired then Some(todo.expiresAt) else None,
      draggable := status == Active && !isCompleting)
  }

  /**
    A task listed on the Active tab, with the setting on, shows a non-empty
    "time left" text.
  */
  lemma ActiveRowShowsTimeLeft(todo: Todo, now: int, showTimeCompleted: bool, showTimeExpired: bool, isCompleting: bool)
    requires InTab(todo, Active, now)
    ensures Row(todo, Active, now, true, showTimeCompleted, showTimeExpired, isCompleting).remainingText.Some?
  {
  }
}
