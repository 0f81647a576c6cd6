/** The subscriber forms: registration (`RegistrationController`) and the
    details update (`UpdateUserDetailsController`). Both share the live text
    filters, the phone formatter and the name, phone and email patterns. The
    confirmation dialog becomes a `confirmed` flag, alerts become values, and
    what a form sends to the server is returned as a list. */
module SubscriberForms {
  import opened Wrappers
  import opened Text
  import opened Entities

  // ---------------------------------------------------------------------
  // The patterns
  // ---------------------------------------------------------------------

  /** `\d{9}` */
  predicate IsIdText(s: string) { |s| == 9 && AllDigits(s) }

  /** `\d{0,9}`, what the id field may hold while it is being typed. */
  predicate IsIdDraft(s: string) { |s| <= 9 && AllDigits(s) }

  predicate IsNameChar(c: char) { IsAsciiLetter(c) || IsRegexSpace(c) }

  /** `[a-zA-Z\s]*` */
  predicate IsNameDraft(s: string) { forall i :: 0 <= i < |s| ==> IsNameChar(s[i]) }

  /** `[a-zA-Z\s]+` */
  predicate IsNameText(s: string) { |s| > 0 && IsNameDraft(s) }

  /** `\d{3}-\d{3}-\d{4}` */
  predicate IsPhoneText(s: string) {
    |s| == 12 && forall i :: 0 <= i < 12 ==> if i == 3 || i == 7 then s[i] == '-' else IsDigit(s[i])
  }

  /** `[\w.-]` */
  predicate IsEmailChar(c: char) { IsWordChar(c) || c == '.' || c == '-' }

  predicate AllEmailChars(s: string) { forall i :: 0 <= i < |s| ==> IsEmailChar(s[i]) }

  predicate AllLetters(s: string) { forall i :: 0 <= i < |s| ==> IsAsciiLetter(s[i]) }

  /** An '@' at `at` and a '.' at `dot` cut `s` into a non-empty user name and
      domain over `[\w.-]` and a top-level domain of at least two letters. */
  predicate EmailSplit(s: string, at: int, dot: int) {
    0 < at && at + 1 < dot && dot + 2 < |s|
    && s[at] == '@' && s[dot] == '.'
    && AllEmailChars(s[..at]) && AllEmailChars(s[at + 1..dot]) && AllLetters(s[dot + 1..])
  }

  /** `^[\w.-]+@[\w.-]+\.[a-zA-Z]{2,}$` as the regex engine reads it: some
      choice of the '@' and the '.' matches. */
  ghost predicate IsEmail(s: string) {
    exists at, dot :: EmailSplit(s, at, dot)
  }

  // ---------------------------------------------------------------------
  // The email check without search
  // ---------------------------------------------------------------------

  /** The position of the first `c` in `s`. */
  function IndexOf(s: string, c: char): (r: Option<nat>)
    ensures r.None? <==> c !in s
    ensures r.Some? ==> r.value < |s| && s[r.value] == c && c !in s[..r.value]
  {
    if s == [] then None
    else if s[0] == c then Some(0)
    else
      var r := IndexOf(s[1..], c);
      assert c in s <==> c in s[1..] by {
        assert s == [s[0]] + s[1..];
      }
      if r.None? then None
      else
        assert s[..r.value + 1] == [s[0]] + s[1..][..r.value];
        Some(r.value + 1)
  }

  /** The position of the last `c` in `s`. */
  function LastIndexOf(s: string, c: char): (r: Option<nat>)
    ensures r.None? <==> c !in s
    ensures r.Some? ==> r.value < |s| && s[r.value] == c && c !in s[r.value + 1..]
  {
    if s == [] then None
    else if s[|s| - 1] == c then Some(|s| - 1)
    else
      var init := s[..|s| - 1];
      var r := LastIndexOf(init, c);
      assert c in s <==> c in init by {
        assert s == init + [s[|s| - 1]];
      }
      if r.None? then None
      else
        assert s[r.value + 1..] == init[r.value + 1..] + [s[|s| - 1]];
        Some(r.value)
  }

  /** The submit-time email check: only the first '@' and the last '.' need
      trying. */
  function CheckEmail(s: string): bool {
    match (IndexOf(s, '@'), LastIndexOf(s, '.'))
    case (Some(at), Some(dot)) => EmailSplit(s, at, dot)
    case _ => false
  }

  /** The regex's choice is forced: a user name and a domain hold no '@' and a
      top-level domain holds no '.', so the check without search agrees with
      the pattern on every text. */
  lemma CheckEmailMeaning(s: string)
    ensures CheckEmail(s) <==> IsEmail(s)
  {
    if IsEmail(s) {
      var at, dot :| EmailSplit(s, at, dot);
      FirstAt(s, at, dot);
      LastDot(s, at, dot);
    }
  }

  lemma FirstAt(s: string, at: int, dot: int)
    requires EmailSplit(s, at, dot)
    ensures IndexOf(s, '@') == Some(at)
  {
    assert s[at] in s;
    var r := IndexOf(s, '@');
    Absent(s[..r.value], '@');
    forall i | 0 <= i < at ensures s[i] != '@' {
      assert s[..at][i] == s[i];
    }
  }

  lemma LastDot(s: string, at: int, dot: int)
    requires EmailSplit(s, at, dot)
    ensures LastIndexOf(s, '.') == Some(dot)
  {
    assert s[dot] in s;
    var r := LastIndexOf(s, '.');
    Absent(s[r.value + 1..], '.');
    forall i | r.value < i < |s| ensures s[i] != '.' {
      assert s[r.value + 1..][i - r.value - 1] == s[i];
    }
    forall i | dot < i < |s| ensures s[i] != '.' {
      assert s[dot + 1..][i - dot - 1] == s[i];
    }
  }

  lemma Absent(s: string, c: char)
    requires c !in s
    ensures forall i :: 0 <= i < |s| ==> s[i] != c
  {
  }

  // ---------------------------------------------------------------------
  // The live filters
  // ---------------------------------------------------------------------

  /** The email field's live filter, `^[\w.-]*@?[\w.-]*\.?[a-zA-Z]{0,}$`:
      a run of address characters, an optional '@', another run, an optional
      '.' and a run of letters. */
  ghost predicate IsEmailDraftPattern(s: string) {
    exists a, b, c, d :: DraftSplit(s, a, b, c, d)
  }

  predicate DraftSplit(s: string, a: int, b: int, c: int, d: int) {
    0 <= a <= b <= c <= d <= |s|
    && AllEmailChars(s[..a])
    && (b == a || (b == a + 1 && s[a] == '@'))
    && AllEmailChars(s[b..c])
    && (d == c || (d == c + 1 && s[c] == '.'))
    && AllLetters(s[d..])
  }

  /** The same filter without search: address characters and '@' only, with
      at most one '@'. */
  predicate IsEmailDraft(s: string) {
    (forall i :: 0 <= i < |s| ==> IsEmailChar(s[i]) || s[i] == '@') && CountChar(s, '@') <= 1
  }

  lemma EmailDraftMeaning(s: string)
    ensures IsEmailDraft(s) <==> IsEmailDraftPattern(s)
  {
    if IsEmailDraft(s) {
      var p := IndexOf(s, '@');
      if p.None? {
        assert DraftSplit(s, |s|, |s|, |s|, |s|);
      } else {
        var at := p.value;
        NoSecondAt(s, at);
        assert DraftSplit(s, at, at + 1, |s|, |s|);
      }
    }
    if IsEmailDraftPattern(s) {
      var a, b, c, d :| DraftSplit(s, a, b, c, d);
      DraftSplitChars(s, a, b, c, d);
      DraftSplitCount(s, a, b, c, d);
    }
  }

  /** With at most one '@', nothing after the first one is an '@'. */
  lemma NoSecondAt(s: string, at: int)
    requires 0 <= at < |s| && s[at] == '@' && CountChar(s, '@') <= 1
    ensures forall i :: at < i < |s| ==> s[i] != '@'
  {
    CountAround(s, at, '@');
    var rest := s[at + 1..];
    assert CountChar(rest, '@') == 0;
    forall i | at < i < |s| ensures s[i] != '@' {
      assert rest[i - at - 1] == s[i];
    }
  }

  /** The count of `c` in `s`, split at position `k`. */
  lemma CountAround(s: string, k: int, c: char)
    requires 0 <= k < |s|
    ensures CountChar(s, c) == CountChar(s[..k], c) + (if s[k] == c then 1 else 0) + CountChar(s[k + 1..], c)
  {
    assert s == s[..k] + s[k..];
    CountCharAppend(s[..k], s[k..], c);
    assert s[k..] == [s[k]] + s[k + 1..];
    CountCharAppend([s[k]], s[k + 1..], c);
  }

  lemma DraftSplitChars(s: string, a: int, b: int, c: int, d: int)
    requires DraftSplit(s, a, b, c, d)
    ensures forall i :: 0 <= i < |s| ==> IsEmailChar(s[i]) || s[i] == '@'
  {
    forall i | 0 <= i < |s| ensures IsEmailChar(s[i]) || s[i] == '@' {
      if i < a {
        assert s[..a][i] == s[i];
      } else if b <= i < c {
        assert s[b..c][i - b] == s[i];
      } else if d <= i {
        assert s[d..][i - d] == s[i];
      }
    }
  }

  lemma DraftSplitCount(s: string, a: int, b: int, c: int, d: int)
    requires DraftSplit(s, a, b, c, d)
    ensures CountChar(s, '@') <= 1
  {
    var u, m, rest := s[..a], s[a..b], s[b..];
    assert s == u + m + rest;
    CountCharAppend(u + m, rest, '@');
    CountCharAppend(u, m, '@');
    DraftHeadCount(s, a, b, c, d);
    DraftRestCount(s, a, b, c, d);
  }

  lemma DraftHeadCount(s: string, a: int, b: int, c: int, d: int)
    requires DraftSplit(s, a, b, c, d)
    ensures CountChar(s[..a], '@') == 0
  {
    var u := s[..a];
    forall i | 0 <= i < |u| ensures u[i] != '@' {
      assert IsEmailChar(u[i]);
    }
  }

  lemma DraftRestCount(s: string, a: int, b: int, c: int, d: int)
    requires DraftSplit(s, a, b, c, d)
    ensures CountChar(s[b..], '@') == 0
  {
    var rest := s[b..];
    forall i | 0 <= i < |rest| ensures rest[i] != '@' {
      DraftTailChar(s, a, b, c, d, b + i);
    }
  }

  /** After the optional '@', a draft holds no '@'. */
  lemma DraftTailChar(s: string, a: int, b: int, c: int, d: int, i: int)
    requires DraftSplit(s, a, b, c, d) && b <= i < |s|
    ensures s[i] != '@'
  {
    if i < c {
      assert s[b..c][i - b] == s[i];
    } else if d <= i {
      assert s[d..][i - d] == s[i];
    }
  }

  /** `LiveFilter` applied to every keystroke: the field after typing `s`
      into an empty field one character at a time. */
  function TypeChars(accept: string -> bool, s: string): (r: string)
    ensures accept([]) ==> accept(r)
    decreases |s|
  {
    if s == [] then []
    else
      var before := TypeChars(accept, s[..|s| - 1]);
      LiveFilter(accept, before, before + [s[|s| - 1]])
  }

  /** When every prefix of a text passes the filter, typing it is never
      reverted. */
  lemma {:induction false} TypingAcceptedPrefixes(accept: string -> bool, s: string)
    requires forall n :: 0 <= n <= |s| ==> accept(s[..n])
    ensures TypeChars(accept, s) == s
    decreases |s|
  {
    if s != [] {
      var init := s[..|s| - 1];
      forall n | 0 <= n <= |init| ensures accept(init[..n]) {
        assert init[..n] == s[..n];
      }
      TypingAcceptedPrefixes(accept, init);
      assert init + [s[|s| - 1]] == s;
      assert s[..|s|] == s;
      assert accept(s);
    }
  }

  /** Every prefix of a valid id, name or address passes its live filter, so
      a valid value can always be typed in full. */
  lemma IdTypedInFull(s: string)
    requires IsIdText(s)
    ensures TypeChars(IsIdDraft, s) == s
  {
    forall n | 0 <= n <= |s| ensures IsIdDraft(s[..n]) {
      assert forall i :: 0 <= i < n ==> s[..n][i] == s[i];
    }
    TypingAcceptedPrefixes(IsIdDraft, s);
  }

  lemma NameTypedInFull(s: string)
    requires IsNameText(s)
    ensures TypeChars(IsNameDraft, s) == s
  {
    forall n | 0 <= n <= |s| ensures IsNameDraft(s[..n]) {
      assert forall i :: 0 <= i < n ==> s[..n][i] == s[i];
    }
    TypingAcceptedPrefixes(IsNameDraft, s);
  }

  lemma EmailTypedInFull(s: string)
    requires IsEmail(s)
    ensures TypeChars(IsEmailDraft, s) == s
  {
    var at, dot :| EmailSplit(s, at, dot);
    EmailChars(s, at, dot);
    forall n | 0 <= n <= |s| ensures IsEmailDraft(s[..n]) {
      assert forall i :: 0 <= i < n ==> s[..n][i] == s[i];
      assert s == s[..n] + s[n..];
      CountCharAppend(s[..n], s[n..], '@');
    }
    TypingAcceptedPrefixes(IsEmailDraft, s);
  }

  /** An address holds one '@' and address characters otherwise. */
  lemma EmailChars(s: string, at: int, dot: int)
    requires EmailSplit(s, at, dot)
    ensures IsEmailDraft(s) && CountChar(s, '@') == 1
  {
    assert DraftSplit(s, at, at + 1, dot, dot + 1);
    DraftSplitChars(s, at, at + 1, dot, dot + 1);
    EmailAtCount(s, at, dot);
  }

  lemma EmailAtCount(s: string, at: int, dot: int)
    requires EmailSplit(s, at, dot)
    ensures CountChar(s, '@') == 1
  {
    assert DraftSplit(s, at, at + 1, dot, dot + 1);
    CountAround(s, at, '@');
    var u, rest := s[..at], s[at + 1..];
    forall i | 0 <= i < |u| ensures u[i] != '@' {
      assert IsEmailChar(u[i]);
    }
    forall i | 0 <= i < |rest| ensures rest[i] != '@' {
      DraftTailChar(s, at, at + 1, dot, dot + 1, at + 1 + i);
    }
  }

  // ---------------------------------------------------------------------
  // The phone formatter
  // ---------------------------------------------------------------------

  /** Digits laid out as `ddd`, then `ddd-d..`, then `ddd-ddd-d..`. */
  function LayOutPhone(d: string): string {
    if |d| <= 3 then d
    else if |d| <= 6 then d[..3] + "-" + d[3..]
    else d[..3] + "-" + d[3..6] + "-" + d[6..]
  }

  /** The listener's loop: each digit appended, with a dash put in front of
      the fourth and the seventh. */
  method LayOutPhoneLoop(digits: string) returns (formatted: string)
    ensures formatted == LayOutPhone(digits)
  {
    formatted := "";
    var i := 0;
    while i < |digits|
      invariant 0 <= i <= |digits|
      invariant formatted == LayOutPhone(digits[..i])
    {
      LayOutPhoneStep(digits, i);
      if i == 3 || i == 6 {
        formatted := formatted + "-";
      }
      formatted := formatted + [digits[i]];
      i := i + 1;
    }
    assert digits[..i] == digits;
  }

  lemma LayOutPhoneStep(d: string, i: int)
    requires 0 <= i < |d|
    ensures LayOutPhone(d[..i + 1]) == LayOutPhone(d[..i]) + (if i == 3 || i == 6 then "-" else "") + [d[i]]
  {
    var p, q := d[..i], d[..i + 1];
    assert q == p + [d[i]];
    if i < 3 {
    } else if i == 3 {
      assert q[..3] == p && q[3..] == [d[i]];
    } else if i < 6 {
      assert q[..3] == p[..3] && q[3..] == p[3..] + [d[i]];
    } else if i == 6 {
      assert q[..3] == p[..3] && q[3..6] == p[3..] && q[6..] == [d[i]];
    } else {
      assert q[..3] == p[..3] && q[3..6] == p[3..6] && q[6..] == p[6..] + [d[i]];
    }
  }

  /** The phone field's listener: keep the digits, at most ten of them, and
      lay them out with dashes. */
  function FormatPhone(text: string): (r: string)
    ensures |r| <= 12
    ensures var n := |Take(Digits(text), 10)|; |r| == n + (if n > 6 then 2 else if n > 3 then 1 else 0)
    ensures Digits(r) == Take(Digits(text), 10)
    ensures forall i :: 0 <= i < |r| ==> (r[i] == '-' <==> i == 3 || i == 7)
    ensures forall i :: 0 <= i < |r| && i != 3 && i != 7 ==> IsDigit(r[i])
  {
    var d := Take(Digits(text), 10);
    LayOutPhoneDigits(d);
    LayOutPhone(d)
  }

  lemma LayOutPhoneDigits(d: string)
    requires |d| <= 10 && AllDigits(d)
    ensures Digits(LayOutPhone(d)) == d
    ensures |LayOutPhone(d)| == |d| + (if |d| > 6 then 2 else if |d| > 3 then 1 else 0)
    ensures forall i :: 0 <= i < |LayOutPhone(d)| ==> (LayOutPhone(d)[i] == '-' <==> i == 3 || i == 7)
    ensures forall i :: 0 <= i < |LayOutPhone(d)| && i != 3 && i != 7 ==> IsDigit(LayOutPhone(d)[i])
  {
    LayOutPhoneReadsBack(d);
    LayOutPhoneShape(d);
  }

  lemma LayOutPhoneReadsBack(d: string)
    requires AllDigits(d)
    ensures Digits(LayOutPhone(d)) == d
  {
    if 3 < |d| <= 6 {
      ReadsBackMiddle(d);
    } else if |d| > 6 {
      ReadsBackLong(d);
    }
  }

  lemma ReadsBackMiddle(d: string)
    requires AllDigits(d) && 3 < |d| <= 6
    ensures Digits(d[..3] + "-" + d[3..]) == d
  {
    DigitsAroundDash(d[..3], d[3..]);
    assert d == d[..3] + d[3..];
  }

  lemma ReadsBackLong(d: string)
    requires AllDigits(d) && 6 < |d|
    ensures Digits(d[..3] + "-" + d[3..6] + "-" + d[6..]) == d
  {
    var a, b, c := d[..3], d[3..6], d[6..];
    assert AllDigits(a) && AllDigits(b) && AllDigits(c);
    DigitsOfDashedDigits(a, b, c);
    assert d == a + b + c;
  }

  lemma DigitsOfDashedDigits(a: string, b: string, c: string)
    requires AllDigits(a) && AllDigits(b) && AllDigits(c)
    ensures Digits(a + "-" + b + "-" + c) == a + b + c
  {
    DigitsAroundDash(a + "-" + b, c);
    DigitsAroundDash(a, b);
  }

  lemma DigitsAroundDash(a: string, b: string)
    ensures Digits(a + "-" + b) == Digits(a) + Digits(b)
  {
    DigitsAppend(a + "-", b);
    DigitsAppend(a, "-");
  }

  lemma LayOutPhoneShape(d: string)
    requires |d| <= 10 && AllDigits(d)
    ensures |LayOutPhone(d)| == |d| + (if |d| > 6 then 2 else if |d| > 3 then 1 else 0)
    ensures forall i :: 0 <= i < |LayOutPhone(d)| ==> (LayOutPhone(d)[i] == '-' <==> i == 3 || i == 7)
    ensures forall i :: 0 <= i < |LayOutPhone(d)| && i != 3 && i != 7 ==> IsDigit(LayOutPhone(d)[i])
  {
    var r := LayOutPhone(d);
    forall i | 0 <= i < |r| ensures (r[i] == '-' <==> i == 3 || i == 7) && (i != 3 && i != 7 ==> IsDigit(r[i])) {
      if i < 3 {
        assert r[i] == d[i];
      } else if i > 3 && i < 7 {
        assert r[i] == d[i - 1];
      } else if i > 7 {
        assert r[i] == d[i - 2];
      }
    }
  }

  /** Formatting its own output changes nothing, so the `setText` inside the
      listener, which fires the listener again, settles at once. */
  lemma FormatPhoneIdempotent(text: string)
    ensures FormatPhone(FormatPhone(text)) == FormatPhone(text)
  {
    var r := FormatPhone(text);
    var d := Take(Digits(text), 10);
    assert Digits(r) == d;
    assert Take(Digits(r), 10) == d;
  }

  /** The formatted text passes the submit check exactly when ten digits were
      entered. */
  lemma FormatPhoneComplete(text: string)
    ensures IsPhoneText(FormatPhone(text)) <==> |Digits(text)| >= 10
  {
    var d := Take(Digits(text), 10);
    LayOutPhoneDigits(d);
  }

  /** A phone already in the submit format is left as it is, so loading a
      subscriber's stored phone into the update form does not alter it. */
  lemma PhoneTextIsFixedPoint(s: string)
    requires IsPhoneText(s)
    ensures FormatPhone(s) == s
  {
    PhoneTextDigits(s);
    PhoneTextLayout(s);
  }

  lemma PhoneTextDigits(s: string)
    requires IsPhoneText(s)
    ensures Digits(s) == s[..3] + s[4..7] + s[8..]
  {
    var a, b, c := s[..3], s[4..7], s[8..];
    assert s == a + "-" + b + "-" + c;
    assert AllDigits(a) && AllDigits(b) && AllDigits(c);
    DigitsOfDashedDigits(a, b, c);
  }

  lemma PhoneTextLayout(s: string)
    requires IsPhoneText(s)
    ensures LayOutPhone(Digits(s)) == s
  {
    PhoneTextDigits(s);
    var d := Digits(s);
    assert LayOutPhone(d) == d[..3] + "-" + d[3..6] + "-" + d[6..];
    assert d[..3] == s[..3] && d[3..6] == s[4..7] && d[6..] == s[8..];
    assert s == s[..3] + "-" + s[4..7] + "-" + s[8..];
  }

  /** The listener's visible effects: the field text and whether the
      "Phone must be 10 digits" warning shows. */
  datatype PhoneField = PhoneField(text: string, warning: bool)

  function OnPhoneEdited(edited: string): (f: PhoneField)
    ensures f.warning <==> |Digits(edited)| < 10
    ensures f.warning <==> !IsPhoneText(f.text)
  {
    FormatPhoneComplete(edited);
    PhoneField(FormatPhone(edited), |Take(Digits(edited), 10)| < 10)
  }

  /** The listener run again on its own output (the `setText` call fires it)
      shows the same text and the same warning. */
  lemma OnPhoneEditedSettles(edited: string)
    ensures OnPhoneEdited(OnPhoneEdited(edited).text) == OnPhoneEdited(edited)
  {
    FormatPhoneIdempotent(edited);
  }

  /** A complete formatted phone has a digit at both ends, so the trimming in
      registration leaves it unchanged and it passes the check. */
  lemma FormattedPhoneRegisters(text: string)
    requires |Digits(text)| >= 10
    ensures Trim(FormatPhone(text)) == FormatPhone(text) && IsPhoneText(FormatPhone(text))
  {
    FormatPhoneComplete(text);
    var r := FormatPhone(text);
    assert IsDigit(r[0]) && IsDigit(r[11]);
    TrimUntouched(r);
  }

  // ---------------------------------------------------------------------
  // Submitting
  // ---------------------------------------------------------------------

  datatype FormError = EmptyField | BadId | BadName | BadPhone | BadEmail

  /** The name, phone and email checks, in the order both forms apply them;
      the first failure is the one reported. */
  function CheckContact(name: string, phone: string, email: string): (r: Option<FormError>)
    ensures r.None? <==> IsNameText(name) && IsPhoneText(phone) && IsEmail(email)
    ensures r == Some(BadName) <==> !IsNameText(name)
    ensures r == Some(BadPhone) <==> IsNameText(name) && !IsPhoneText(phone)
    ensures r == Some(BadEmail) <==> IsNameText(name) && IsPhoneText(phone) && !IsEmail(email)
  {
    CheckEmailMeaning(email);
    if !IsNameText(name) then Some(BadName)
    else if !IsPhoneText(phone) then Some(BadPhone)
    else if !CheckEmail(email) then Some(BadEmail)
    else None
  }

  /** `registerNewSubscriber` up to the confirmation dialog: the four fields
      are trimmed, an empty one is refused, then the id, name, phone and
      email are checked in that order, and the new subscriber is built. */
  function NewSubscriber(idText: string, name: string, phone: string, email: string)
    : (r: Result<Subscriber, FormError>)
    ensures r.Ok? <==>
      IsIdText(Trim(idText)) && IsNameText(Trim(name)) && IsPhoneText(Trim(phone)) && IsEmail(Trim(email))
    ensures r == Err(EmptyField) <==>
      IsBlank(idText) || IsBlank(name) || IsBlank(phone) || IsBlank(email)
    ensures r == Err(BadId) <==>
      !IsBlank(idText) && !IsBlank(name) && !IsBlank(phone) && !IsBlank(email) && !IsIdText(Trim(idText))
    ensures r.Err? && r.error != EmptyField && r.error != BadId ==>
      IsIdText(Trim(idText)) && CheckContact(Trim(name), Trim(phone), Trim(email)) == Some(r.error)
    ensures r.Ok? ==>
      r.value.id == ParseDigits(Trim(idText)) && 0 <= r.value.id <= IntMax
      && r.value.name == Trim(name) && r.value.phone == Trim(phone) && r.value.email == Trim(email)
      && r.value.role == SUBSCRIBER && !r.value.loggedIn && r.value.history == None
      && r.value.tag == "" && r.value.code == 0
  {
    var i, n, p, e := Trim(idText), Trim(name), Trim(phone), Trim(email);
    if n == [] || e == [] || i == [] || p == [] then Err(EmptyField)
    else if !IsIdText(i) then Err(BadId)
    else
      NineDigitsFit(i);
      match CheckContact(n, p, e)
      case Some(err) => Err(err)
      case None => Ok(Subscriber(ParseDigits(i), n, p, e, SUBSCRIBER, false, None, "", 0))
  }

  /** `Integer.parseInt` cannot overflow on nine digits. */
  lemma NineDigitsFit(s: string)
    requires IsIdText(s)
    ensures ParseDigits(s) <= IntMax
  {
    ParseDigitsBound(s);
    assert Pow10(9) == 1_000_000_000;
  }

  /** Different id texts register different ids: nine digits determine the
      number and the number determines the nine digits. */
  lemma RegisteredIdsDistinct(a: string, b: string)
    requires IsIdText(a) && IsIdText(b) && a != b
    ensures ParseDigits(a) != ParseDigits(b)
  {
    if ParseDigits(a) == ParseDigits(b) {
      ParseDigitsInjective(a, b);
    }
  }

  lemma {:induction false} ParseDigitsInjective(a: string, b: string)
    requires AllDigits(a) && AllDigits(b) && |a| == |b|
    requires ParseDigits(a) == ParseDigits(b)
    ensures a == b
    decreases |a|
  {
    if a != [] {
      var n := |a| - 1;
      LastDigit(ParseDigits(a[..n]), DigitValue(a[n]), ParseDigits(b[..n]), DigitValue(b[n]));
      ParseDigitsInjective(a[..n], b[..n]);
      assert a == a[..n] + [a[n]] && b == b[..n] + [b[n]];
    }
  }

  lemma LastDigit(p: nat, x: nat, q: nat, y: nat)
    requires x < 10 && y < 10 && p * 10 + x == q * 10 + y
    ensures p == q && x == y
  {
  }

  /** The screen after pressing Register: an error alert, or, once the dialog
      is confirmed, the subscriber sent to the server and the fields cleared. */
  datatype RegisterStep = RegisterStep(alert: Option<FormError>, sent: seq<Subscriber>, cleared: bool)

  function Register(idText: string, name: string, phone: string, email: string, confirmed: bool)
    : (s: RegisterStep)
    ensures s.alert.Some? <==> NewSubscriber(idText, name, phone, email).Err?
    ensures |s.sent| <= 1
    ensures s.sent != [] <==> confirmed && s.alert.None?
    ensures s.sent != [] ==> s.sent[0] == NewSubscriber(idText, name, phone, email).value
    ensures s.cleared <==> s.sent != []
  {
    match NewSubscriber(idText, name, phone, email)
    case Err(err) => RegisterStep(Some(err), [], false)
    case Ok(sub) => if confirmed then RegisterStep(None, [sub], true) else RegisterStep(None, [], false)
  }

  /** The screen after pressing Update: the subscriber held by the screen,
      the error alert if any, and what was sent. */
  datatype UpdateStep = UpdateStep(sub: Subscriber, alert: Option<FormError>, sent: seq<Subscriber>)

  /** `handleUpdate`: the fields are taken as typed, without trimming; an
      empty one is refused, then name, phone and email are checked in that
      order; on success the three are replaced and the subscriber is sent. */
  function Update(sub: Subscriber, name: string, phone: string, email: string): (u: UpdateStep)
    ensures u.alert.None? <==> IsNameText(name) && IsPhoneText(phone) && IsEmail(email)
    ensures u.alert == Some(EmptyField) <==> name == [] || phone == [] || email == []
    ensures u.alert.Some? && u.alert != Some(EmptyField) ==> u.alert == CheckContact(name, phone, email)
    ensures u.alert.Some? ==> u.sub == sub && u.sent == []
    ensures u.alert.None? ==> u.sub == sub.(name := name, phone := phone, email := email) && u.sent == [u.sub]
  {
    if name == [] || phone == [] || email == [] then UpdateStep(sub, Some(EmptyField), [])
    else
      match CheckContact(name, phone, email)
      case Some(err) => UpdateStep(sub, Some(err), [])
      case None => var s := sub.(email := email).(name := name).(phone := phone); UpdateStep(s, None, [s])
  }

  /** An update never touches the id, role, login state, history, tag or code. */
  lemma UpdateKeepsIdentity(sub: Subscriber, name: string, phone: string, email: string)
    ensures var s := Update(sub, name, phone, email).sub;
      s.id == sub.id && s.role == sub.role && s.loggedIn == sub.loggedIn
      && s.history == sub.history && s.tag == sub.tag && s.code == sub.code
  {
  }

  /** Pressing Update twice with the same fields leaves the subscriber as the
      first press did. */
  lemma UpdateIdempotent(sub: Subscriber, name: string, phone: string, email: string)
    ensures var once := Update(sub, name, phone, email).sub;
      Update(once, name, phone, email).sub == once
  {
  }

  /** The two forms disagree on a name made only of spaces: the update form,
      which does not trim, accepts it, while registration trims it to nothing
      and reports an empty field. */
  lemma BlankNameOnlyUpdates(sub: Subscriber, phone: string, email: string)
    requires IsPhoneText(phone) && IsEmail(email)
    ensures Update(sub, "  ", phone, email).alert.None?
    ensures NewSubscriber("123456789", "  ", phone, email) == Err(EmptyField)
  {
    assert IsNameChar("  "[0]) && IsNameChar("  "[1]);
  }

  /** A subscriber accepted by registration passes the update form with its
      own name, phone and address, and the update changes nothing. */
  lemma RegisteredPassesUpdate(idText: string, name: string, phone: string, email: string)
    requires NewSubscriber(idText, name, phone, email).Ok?
    ensures var sub := NewSubscriber(idText, name, phone, email).value;
      Update(sub, sub.name, sub.phone, sub.email) == UpdateStep(sub, None, [sub])
  {
  }

  // ---------------------------------------------------------------------
  // Server responses
  // ---------------------------------------------------------------------

  datatype Alert = Success(text: string) | Failure(text: string)

  /** What the server sends back: a `SendObject` with its subject and its
      payload (a single string, or the elements of an object array), a plain
      string, or anything else. */
  datatype ServerMessage =
    | Envelope(subject: string, payload: seq<string>)
    | PlainText(text: string)
    | OtherMessage

  /** The update screen's `handleServerMessage`: a "Subscriber" reply is
      shown as success exactly when its text is "updated successfully". */
  function UpdateResponse(msg: ServerMessage): (a: Option<Alert>)
    ensures a.Some? <==> msg.Envelope? && msg.subject == "Subscriber" && |msg.payload| == 1
    ensures a.Some? ==> a.value.text == msg.payload[0]
    ensures a.Some? ==> (a.value.Success? <==> msg.payload[0] == "updated successfully")
  {
    match msg
    case Envelope(subject, payload) =>
      if subject == "Subscriber" && |payload| == 1 then
        if payload[0] == "updated successfully" then Some(Success(payload[0])) else Some(Failure(payload[0]))
      else None
    case _ => None
  }

  /** The registration screen's `handleServerMessage`: "Subscriber created"
      with the code and tag is a success, any other reply is an error. */
  function RegistrationResponse(msg: ServerMessage): (a: Option<Alert>)
    ensures a.Some? && a.value.Success? <==>
      msg.Envelope? && msg.subject == "Subscriber created" && |msg.payload| >= 2
    ensures a.Some? && a.value.Success? ==>
      a.value.text == "Subscriber registered successfully!\nSubscriber Log In Code:" + msg.payload[0]
        + "\nRFID Tag: " + msg.payload[1]
    ensures msg.Envelope? && msg.subject != "Subscriber created"
      ==> a == Some(Failure("Unexpected message type received: " + msg.subject))
    ensures msg.PlainText? ==> a == Some(Failure(msg.text))
    ensures msg.OtherMessage? ==> a.None?
  {
    match msg
    case Envelope(subject, payload) =>
      if subject == "Subscriber created" then
        if |payload| >= 2 then
          Some(Success("Subscriber registered successfully!\nSubscriber Log In Code:" + payload[0]
            + "\nRFID Tag: " + payload[1]))
        else None
      else Some(Failure("Unexpected message type received: " + subject))
    case PlainText(text) => Some(Failure(text))
    case OtherMessage => None
  }
}
