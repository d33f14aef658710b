/** The string helpers of the relay: the HTML escaping applied to chat
    messages, the zero padding and date strings sent to the backend, and the
    query string built for GET calls. */
module Text {
  // ---------------------------------------------------------------------
  // ProcessMessage

  /** String.prototype.replace(/c/g, rep): every `c` of `s` becomes `rep`. */
  function ReplaceAll(s: string, c: char, rep: string): string
  {
    if s == [] then [] else (if s[0] == c then rep else [s[0]]) + ReplaceAll(s[1..], c, rep)
  }

  /** Replacing distributes over concatenation. */
  lemma {:induction false} ReplaceAllAppend(a: string, b: string, c: char, rep: string)
    ensures ReplaceAll(a + b, c, rep) == ReplaceAll(a, c, rep) + ReplaceAll(b, c, rep)
  {
    if a == [] {
      assert a + b == b;
    } else {
      assert (a + b)[1..] == a[1..] + b;
      ReplaceAllAppend(a[1..], b, c, rep);
    }
  }

  lemma ReplaceAllChar(x: char, c: char, rep: string)
    ensures ReplaceAll([x], c, rep) == if x == c then rep else [x]
  {
    assert [x][1..] == [];
  }

  /** Replacing a character the string does not hold changes nothing. */
  lemma {:induction false} ReplaceAllAbsent(s: string, c: char, rep: string)
    requires c !in s
    ensures ReplaceAll(s, c, rep) == s
  {
    if s != [] {
      ReplaceAllAbsent(s[1..], c, rep);
    }
  }

  /** ProcessMessage(msg, chatKey): the escaped message is the single-pass
      escape of the message, holds no `<`, `"` or `'`, and decodes back to
      the message. */
  function ProcessMessage(msg: string): (r: string)
    ensures r == Escape(msg)
    ensures Unescape(r) == msg
    ensures '<' !in r && '"' !in r && '\'' !in r
  {
    PassesAreEscape(msg);
    EscapeRoundTrip(msg);
    EscapeSafe(msg);
    Passes(msg)
  }

  /** The body of ProcessMessage: `&` first, then `<`, `"` and `'` by their
      HTML entities, one global replace after the other. */
  function Passes(msg: string): string
  {
    var amp := ReplaceAll(msg, '&', "&amp;");
    var lt := ReplaceAll(amp, '<', "&lt;");
    var quot := ReplaceAll(lt, '"', "&quot;");
    ReplaceAll(quot, '\'', "&#039;")
  }

  /** The entity a single character is written as; `>` and every other
      character stand for themselves. */
  function EscapeChar(c: char): string
  {
    if c == '&' then "&amp;"
    else if c == '<' then "&lt;"
    else if c == '"' then "&quot;"
    else if c == '\'' then "&#039;"
    else [c]
  }

  /** Escaping in a single pass, character by character. */
  function Escape(s: string): string
  {
    if s == [] then [] else EscapeChar(s[0]) + Escape(s[1..])
  }

  /** The four passes, applied to one character, give its escape: no pass
      touches what an earlier pass wrote. */
  lemma PassesChar(c: char)
    ensures Passes([c]) == EscapeChar(c)
  {
    var amp := ReplaceAll([c], '&', "&amp;");
    ReplaceAllChar(c, '&', "&amp;");
    if c == '&' {
      PassesKeep(amp, 1);
    } else {
      ReplaceAllChar(c, '<', "&lt;");
      var lt := ReplaceAll(amp, '<', "&lt;");
      if c == '<' {
        PassesKeep(lt, 2);
      } else {
        ReplaceAllChar(c, '"', "&quot;");
        var quot := ReplaceAll(lt, '"', "&quot;");
        if c == '"' {
          PassesKeep(quot, 3);
        } else {
          ReplaceAllChar(c, '\'', "&#039;");
        }
      }
    }
  }

  /** An entity written by pass `k` (1 for `&`, 2 for `<`, 3 for `"`) holds
      none of the characters the passes after it replace. */
  lemma PassesKeep(s: string, k: nat)
    requires 1 <= k <= 3
    requires k == 1 ==> s == "&amp;"
    requires k == 2 ==> s == "&lt;"
    requires k == 3 ==> s == "&quot;"
    ensures k <= 1 ==> ReplaceAll(s, '<', "&lt;") == s
    ensures k <= 2 ==> ReplaceAll(s, '"', "&quot;") == s
    ensures ReplaceAll(s, '\'', "&#039;") == s
  {
    if k <= 1 {
      ReplaceAllAbsent(s, '<', "&lt;");
    }
    if k <= 2 {
      ReplaceAllAbsent(s, '"', "&quot;");
    }
    ReplaceAllAbsent(s, '\'', "&#039;");
  }

  /** The four passes are the single-pass escape: because `&` goes first, no
      entity is escaped twice. */
  lemma {:induction false} PassesAreEscape(msg: string)
    ensures Passes(msg) == Escape(msg)
  {
    if msg != [] {
      var c, rest := msg[0], msg[1..];
      assert msg == [c] + rest;
      ReplaceAllAppend([c], rest, '&', "&amp;");
      var a1, a2 := ReplaceAll([c], '&', "&amp;"), ReplaceAll(rest, '&', "&amp;");
      ReplaceAllAppend(a1, a2, '<', "&lt;");
      var l1, l2 := ReplaceAll(a1, '<', "&lt;"), ReplaceAll(a2, '<', "&lt;");
      ReplaceAllAppend(l1, l2, '"', "&quot;");
      var q1, q2 := ReplaceAll(l1, '"', "&quot;"), ReplaceAll(l2, '"', "&quot;");
      ReplaceAllAppend(q1, q2, '\'', "&#039;");
      PassesChar(c);
      PassesAreEscape(rest);
    }
  }

  /** Reading the four entities back (&amp; &lt; &quot; &#039;). */
  function Unescape(s: string): string
    decreases |s|
  {
    if s == [] then []
    else if "&amp;" <= s then "&" + Unescape(s[5..])
    else if "&lt;" <= s then "<" + Unescape(s[4..])
    else if "&quot;" <= s then "\"" + Unescape(s[6..])
    else if "&#039;" <= s then "'" + Unescape(s[6..])
    else [s[0]] + Unescape(s[1..])
  }

  lemma UnescapeStep(c: char, t: string)
    ensures Unescape(EscapeChar(c) + t) == [c] + Unescape(t)
  {
    var e := EscapeChar(c) + t;
    if c == '&' {
      assert e[5..] == t;
    } else if c == '<' {
      assert e[1] == 'l' != "&amp;"[1];
      assert e[4..] == t;
    } else if c == '"' {
      assert e[1] == 'q' != "&amp;"[1] && e[1] != "&lt;"[1];
      assert e[6..] == t;
    } else if c == '\'' {
      assert e[1] == '#' != "&amp;"[1] && e[1] != "&lt;"[1] && e[1] != "&quot;"[1];
      assert e[6..] == t;
    } else {
      assert e[0] == c && e[1..] == t;
    }
  }

  lemma {:induction false} EscapeRoundTrip(msg: string)
    ensures Unescape(Escape(msg)) == msg
  {
    if msg != [] {
      EscapeRoundTrip(msg[1..]);
      UnescapeStep(msg[0], Escape(msg[1..]));
      assert msg == [msg[0]] + msg[1..];
    }
  }

  lemma {:induction false} EscapeSafe(msg: string)
    ensures '<' !in Escape(msg) && '"' !in Escape(msg) && '\'' !in Escape(msg)
  {
    if msg != [] {
      EscapeSafe(msg[1..]);
      assert Escape(msg) == EscapeChar(msg[0]) + Escape(msg[1..]);
    }
  }

  // ---------------------------------------------------------------------
  // Numbers: AddZero

  function DigitChar(d: int): char
    requires 0 <= d < 10
  {
    "0123456789"[d]
  }

  /** Number-to-string conversion of a non-negative integer, in decimal. */
  function NatToString(n: nat): string
  {
    if n < 10 then [DigitChar(n)] else NatToString(n / 10) + [DigitChar(n % 10)]
  }

  /** `num + ""` for an integer `num`. */
  function IntToString(num: int): string
  {
    if num < 0 then "-" + NatToString(-num) else NatToString(num)
  }

  predicate IsDigits(s: string)
  {
    forall i :: 0 <= i < |s| ==> '0' <= s[i] <= '9'
  }

  /** The value of a string of decimal digits. */
  function DigitsValue(s: string): nat
    requires IsDigits(s)
  {
    if s == [] then 0 else 10 * DigitsValue(s[..|s| - 1]) + (s[|s| - 1] as int - '0' as int)
  }

  function Pow10(k: nat): nat
  {
    if k == 0 then 1 else 10 * Pow10(k - 1)
  }

  /** Decimal conversion reads back to the number, and its length is the
      number's count of decimal digits: the least `k` with n < 10^k. */
  lemma {:induction false} NatToStringRoundTrip(n: nat)
    ensures IsDigits(NatToString(n)) && DigitsValue(NatToString(n)) == n
    ensures n < Pow10(|NatToString(n)|)
    ensures n >= Pow10(|NatToString(n)| - 1) || n == 0
    ensures n < 10 ==> |NatToString(n)| == 1
    ensures 10 <= n < 100 ==> |NatToString(n)| == 2
    ensures 100 <= n < 1000 ==> |NatToString(n)| == 3
    ensures 1000 <= n < 10000 ==> |NatToString(n)| == 4
  {
    var s := NatToString(n);
    if n >= 10 {
      var t := NatToString(n / 10);
      NatToStringRoundTrip(n / 10);
      assert s[..|s| - 1] == t;
      assert |s| == |t| + 1;
      assert n < 10 * Pow10(|t|) by {
        assert n / 10 + 1 <= Pow10(|t|);
        assert n < 10 * (n / 10 + 1);
      }
      if n / 10 >= 10 {
        assert Pow10(|t|) == 10 * Pow10(|t| - 1);
        assert 10 * Pow10(|t| - 1) <= 10 * (n / 10);
      } else {
        assert |t| == 1;
      }
    }
  }

  /** AddZero(num) pads to two digits exactly the one-digit numbers: every
      number from 0 to 99 comes out as two digits that read back to it; a
      negative number or one of 10 and more is written as is. */
  function AddZero(num: int): (r: string)
    ensures 0 <= num ==> IsDigits(r) && DigitsValue(r) == num
    ensures 0 <= num < 100 ==> |r| == 2
    ensures 0 <= num < 10 ==> r[0] == '0'
    ensures (num < 0 || num >= 10) ==> r == IntToString(num)
  {
    if num < 0 then IntToString(num)
    else
      NatToStringRoundTrip(num);
      if num < 10 then (LeadingZero(NatToString(num)); "0" + IntToString(num)) else IntToString(num)
  }

  /** A leading zero does not change a digit string's value. */
  lemma LeadingZero(s: string)
    requires IsDigits(s)
    ensures IsDigits("0" + s) && DigitsValue("0" + s) == DigitsValue(s)
  {
    if s != [] {
      var z := "0" + s;
      assert z[..|z| - 1] == "0" + s[..|s| - 1];
      LeadingZero(s[..|s| - 1]);
    }
  }

  // ---------------------------------------------------------------------
  // Dates: GetDateTime and GetDateTimeForURL

  /** Array.prototype.join(sep) over strings. */
  function Join(parts: seq<string>, sep: string): string
  {
    if parts == [] then "" else if |parts| == 1 then parts[0] else parts[0] + sep + Join(parts[1..], sep)
  }

  lemma Join3(a: string, b: string, c: string, sep: string)
    ensures Join([a, b, c], sep) == a + sep + b + sep + c
  {
    assert [a, b, c][1..] == [b, c];
    assert [b, c][1..] == [c];
    assert Join([c], sep) == c;
    assert Join([b, c], sep) == b + sep + c;
  }

  lemma Join2(a: string, b: string, sep: string)
    ensures Join([a, b], sep) == a + sep + b
  {
    assert [a, b][1..] == [b];
  }

  /** The local-time components a Date reports: `month` as getMonth() gives
      it (0 for January). */
  datatype Clock = Clock(year: int, month: int, day: int, hours: int, minutes: int, seconds: int)

  /** The components of a real date in a four-digit year. */
  predicate ValidClock(c: Clock)
  {
    && 1000 <= c.year <= 9999 && 0 <= c.month < 12 && 1 <= c.day <= 31
    && 0 <= c.hours < 24 && 0 <= c.minutes < 60 && 0 <= c.seconds < 60
  }

  /** The date joined with "-", the time with `timeSep`, the two with `mid`. */
  function DateTimeWith(c: Clock, timeSep: string, mid: string): string
  {
    Join([Join([IntToString(c.year), AddZero(c.month + 1), AddZero(c.day)], "-"),
          Join([AddZero(c.hours), AddZero(c.minutes), AddZero(c.seconds)], timeSep)], mid)
  }

  /** GetDateTime: "YYYY-MM-DD hh:mm:ss", 19 characters with the separators
      at fixed places, each field reading back to the component it came from
      (the month one more than getMonth()). */
  function GetDateTime(c: Clock): (r: string)
    ensures ValidClock(c) ==>
              && |r| == 19
              && r[4] == '-' && r[7] == '-' && r[10] == ' ' && r[13] == ':' && r[16] == ':'
              && IsDigits(r[..4]) && DigitsValue(r[..4]) == c.year
              && IsDigits(r[5..7]) && DigitsValue(r[5..7]) == c.month + 1
              && IsDigits(r[8..10]) && DigitsValue(r[8..10]) == c.day
              && IsDigits(r[11..13]) && DigitsValue(r[11..13]) == c.hours
              && IsDigits(r[14..16]) && DigitsValue(r[14..16]) == c.minutes
              && IsDigits(r[17..19]) && DigitsValue(r[17..19]) == c.seconds
  {
    DateTimeLayout(c);
    DateTimeWith(c, ":", " ")
  }

  /** GetDateTimeForURL: GetDateTime with its separators encoded, the colons
      as "%3a" and the blank as "+". */
  function GetDateTimeForURL(c: Clock): (r: string)
    ensures ValidClock(c) ==> r == EncodeTime(GetDateTime(c))
  {
    DateTimeEncodes(c);
    DateTimeWith(c, "%3a", "+")
  }

  /** DateTimeWith spelled out: the six fields with their separators. */
  lemma DateTimeWithIs(c: Clock, timeSep: string, mid: string)
    ensures DateTimeWith(c, timeSep, mid) ==
              IntToString(c.year) + "-" + AddZero(c.month + 1) + "-" + AddZero(c.day) + mid +
              AddZero(c.hours) + timeSep + AddZero(c.minutes) + timeSep + AddZero(c.seconds)
  {
    JoinFields(IntToString(c.year), AddZero(c.month + 1), AddZero(c.day),
               AddZero(c.hours), AddZero(c.minutes), AddZero(c.seconds), timeSep, mid);
  }

  lemma JoinFields(y: string, mo: string, d: string, h: string, mi: string, s: string, timeSep: string, mid: string)
    ensures Join([Join([y, mo, d], "-"), Join([h, mi, s], timeSep)], mid) ==
              y + "-" + mo + "-" + d + mid + h + timeSep + mi + timeSep + s
  {
    Join3(y, mo, d, "-");
    Join3(h, mi, s, timeSep);
    Join2(y + "-" + mo + "-" + d, h + timeSep + mi + timeSep + s, mid);
  }

  /** A four-digit field and five two-digit fields, as a real date has them. */
  predicate Padded(y: string, mo: string, d: string, h: string, mi: string, s: string)
  {
    && |y| == 4 && |mo| == 2 && |d| == 2 && |h| == 2 && |mi| == 2 && |s| == 2
    && IsDigits(y) && IsDigits(mo) && IsDigits(d) && IsDigits(h) && IsDigits(mi) && IsDigits(s)
  }

  lemma ClockPadded(c: Clock)
    requires ValidClock(c)
    ensures Padded(IntToString(c.year), AddZero(c.month + 1), AddZero(c.day),
                   AddZero(c.hours), AddZero(c.minutes), AddZero(c.seconds))
    ensures DigitsValue(IntToString(c.year)) == c.year
    ensures DigitsValue(AddZero(c.month + 1)) == c.month + 1 && DigitsValue(AddZero(c.day)) == c.day
    ensures DigitsValue(AddZero(c.hours)) == c.hours && DigitsValue(AddZero(c.minutes)) == c.minutes
    ensures DigitsValue(AddZero(c.seconds)) == c.seconds
  {
    NatToStringRoundTrip(c.year);
  }

  /** Where the fields of "YYYY-MM-DD hh:mm:ss" sit. */
  lemma Layout(y: string, mo: string, d: string, h: string, mi: string, s: string)
    requires Padded(y, mo, d, h, mi, s)
    ensures var r := y + "-" + mo + "-" + d + " " + h + ":" + mi + ":" + s;
            && |r| == 19
            && r[4] == '-' && r[7] == '-' && r[10] == ' ' && r[13] == ':' && r[16] == ':'
            && r[..4] == y && r[5..7] == mo && r[8..10] == d
            && r[11..13] == h && r[14..16] == mi && r[17..19] == s
  {
    var date := y + "-" + mo + "-" + d;
    var time := h + ":" + mi + ":" + s;
    var r := y + "-" + mo + "-" + d + " " + h + ":" + mi + ":" + s;
    assert r == date + " " + time;
    assert time[..2] == h && time[3..5] == mi && time[6..8] == s;
    assert r[11..19] == time;
    assert r[11..13] == time[..2] && r[14..16] == time[3..5] && r[17..19] == time[6..8];
  }

  /** Where the fields of GetDateTime sit. */
  lemma DateTimeLayout(c: Clock)
    ensures var r := DateTimeWith(c, ":", " ");
            ValidClock(c) ==>
            && |r| == 19
            && r[4] == '-' && r[7] == '-' && r[10] == ' ' && r[13] == ':' && r[16] == ':'
            && IsDigits(r[..4]) && DigitsValue(r[..4]) == c.year
            && IsDigits(r[5..7]) && DigitsValue(r[5..7]) == c.month + 1
            && IsDigits(r[8..10]) && DigitsValue(r[8..10]) == c.day
            && IsDigits(r[11..13]) && DigitsValue(r[11..13]) == c.hours
            && IsDigits(r[14..16]) && DigitsValue(r[14..16]) == c.minutes
            && IsDigits(r[17..19]) && DigitsValue(r[17..19]) == c.seconds
  {
    if ValidClock(c) {
      DateTimeWithIs(c, ":", " ");
      ClockPadded(c);
      Layout(IntToString(c.year), AddZero(c.month + 1), AddZero(c.day),
             AddZero(c.hours), AddZero(c.minutes), AddZero(c.seconds));
    }
  }

  /** The percent-encoding GET parameters need for a date: ":" as "%3a",
      the blank as "+". */
  function EncodeTime(s: string): string
  {
    ReplaceAll(ReplaceAll(s, ':', "%3a"), ' ', "+")
  }

  lemma EncodeTimeAppend(a: string, b: string)
    ensures EncodeTime(a + b) == EncodeTime(a) + EncodeTime(b)
  {
    ReplaceAllAppend(a, b, ':', "%3a");
    ReplaceAllAppend(ReplaceAll(a, ':', "%3a"), ReplaceAll(b, ':', "%3a"), ' ', "+");
  }

  lemma EncodeTimeDigits(s: string)
    requires IsDigits(s)
    ensures EncodeTime(s) == s
  {
    assert ':' !in s && ' ' !in s;
    ReplaceAllAbsent(s, ':', "%3a");
    ReplaceAllAbsent(s, ' ', "+");
  }

  lemma EncodeTimeSeparators()
    ensures EncodeTime("-") == "-" && EncodeTime(":") == "%3a" && EncodeTime(" ") == "+"
  {
    ReplaceAllChar('-', ':', "%3a");
    ReplaceAllChar('-', ' ', "+");
    ReplaceAllChar(':', ':', "%3a");
    ReplaceAllAbsent("%3a", ' ', "+");
    ReplaceAllChar(' ', ':', "%3a");
    ReplaceAllChar(' ', ' ', "+");
  }

  /** Encoding the six fields with their separators. */
  lemma EncodeFields(y: string, mo: string, d: string, h: string, mi: string, s: string)
    requires Padded(y, mo, d, h, mi, s)
    ensures EncodeTime(y + "-" + mo + "-" + d + " " + h + ":" + mi + ":" + s) ==
            y + "-" + mo + "-" + d + "+" + h + "%3a" + mi + "%3a" + s
  {
    EncodeTimeSeparators();
    EncodeTimeDigits(y);
    EncodeTimeDigits(mo);
    EncodeTimeDigits(d);
    EncodeTimeDigits(h);
    EncodeTimeDigits(mi);
    EncodeTimeDigits(s);
    var p1 := y + "-";
    EncodeTimeAppend(y, "-");
    var p2 := p1 + mo;
    EncodeTimeAppend(p1, mo);
    var p3 := p2 + "-";
    EncodeTimeAppend(p2, "-");
    var p4 := p3 + d;
    EncodeTimeAppend(p3, d);
    var p5 := p4 + " ";
    EncodeTimeAppend(p4, " ");
    var p6 := p5 + h;
    EncodeTimeAppend(p5, h);
    var p7 := p6 + ":";
    EncodeTimeAppend(p6, ":");
    var p8 := p7 + mi;
    EncodeTimeAppend(p7, mi);
    var p9 := p8 + ":";
    EncodeTimeAppend(p8, ":");
    EncodeTimeAppend(p9, s);
  }

  /** The URL form of a date is the plain form with its separators encoded. */
  lemma DateTimeEncodes(c: Clock)
    ensures ValidClock(c) ==> DateTimeWith(c, "%3a", "+") == EncodeTime(DateTimeWith(c, ":", " "))
  {
    if ValidClock(c) {
      DateTimeWithIs(c, ":", " ");
      DateTimeWithIs(c, "%3a", "+");
      ClockPadded(c);
      EncodeFields(IntToString(c.year), AddZero(c.month + 1), AddZero(c.day),
                   AddZero(c.hours), AddZero(c.minutes), AddZero(c.seconds));
    }
  }

  // ---------------------------------------------------------------------
  // QueryStringFromJSON

  /** One `attribute=value` item; the values are taken as already turned
      into strings, as `+` does. */
  function Render(p: (string, string)): string
  {
    p.0 + "=" + p.1
  }

  function Renders(obj: seq<(string, string)>): (r: seq<string>)
    ensures |r| == |obj|
    ensures forall i :: 0 <= i < |obj| ==> r[i] == Render(obj[i])
  {
    if obj == [] then [] else [Render(obj[0])] + Renders(obj[1..])
  }

  /** Joining one more item: the separator goes between, never in front. */
  lemma {:induction false} JoinSnoc(parts: seq<string>, x: string, sep: string)
    ensures Join(parts + [x], sep) == if parts == [] then x else Join(parts, sep) + sep + x
  {
    if |parts| > 1 {
      assert (parts + [x])[1..] == parts[1..] + [x];
      JoinSnoc(parts[1..], x, sep);
    } else if |parts| == 1 {
      assert (parts + [x])[1..] == [x];
    }
  }

  /** The items of one more attribute: one more item, joined after a "&". */
  lemma RendersSnoc(obj: seq<(string, string)>, i: nat)
    requires i < |obj|
    ensures Renders(obj[..i + 1]) == Renders(obj[..i]) + [Render(obj[i])]
    ensures Join(Renders(obj[..i + 1]), "&") ==
              if i == 0 then Render(obj[i]) else Join(Renders(obj[..i]), "&") + "&" + Render(obj[i])
  {
    assert Renders(obj[..i + 1]) == Renders(obj[..i]) + [Render(obj[i])];
    JoinSnoc(Renders(obj[..i]), Render(obj[i]), "&");
  }

  /** QueryStringFromJSON(obj): the attributes in enumeration order as
      `attribute=value`, with "&" between two of them. */
  method QueryStringFromJSON(obj: seq<(string, string)>) returns (querystring: string)
    ensures querystring == Join(Renders(obj), "&")
  {
    querystring := "";
    for i := 0 to |obj|
      invariant querystring == Join(Renders(obj[..i]), "&")
      invariant querystring == "" <==> i == 0
    {
      ghost var before := querystring;
      RendersSnoc(obj, i);
      if querystring != "" {
        querystring := querystring + "&";
      }
      querystring := querystring + (obj[i].0 + "=" + obj[i].1);
      assert querystring == (if before == "" then "" else before + "&") + Render(obj[i]);
    }
    assert obj[..|obj|] == obj;
  }

  /** Splitting at every `c`. */
  function SplitOn(s: string, c: char): (parts: seq<string>)
    ensures |parts| >= 1
  {
    if s == [] then [""]
    else
      var rest := SplitOn(s[1..], c);
      if s[0] == c then [""] + rest else [[s[0]] + rest[0]] + rest[1..]
  }

  /** An attribute and value read back from `attribute=value`: the
      attribute ends at the first "=". */
  function ParsePair(item: string): (string, string)
  {
    if item == [] then ("", "")
    else if item[0] == '=' then ("", item[1..])
    else var p := ParsePair(item[1..]); ([item[0]] + p.0, p.1)
  }

  /** A query string read back into its attributes and values. */
  function ParseQuery(qs: string): seq<(string, string)>
  {
    if qs == [] then [] else ParsePairs(SplitOn(qs, '&'))
  }

  function ParsePairs(items: seq<string>): (r: seq<(string, string)>)
    ensures |r| == |items|
  {
    if items == [] then [] else [ParsePair(items[0])] + ParsePairs(items[1..])
  }

  lemma {:induction false} SplitOnPlain(a: string, c: char)
    requires c !in a
    ensures SplitOn(a, c) == [a]
  {
    if a != [] {
      SplitOnPlain(a[1..], c);
      assert [a[0]] + a[1..] == a;
    }
  }

  lemma {:induction false} SplitOnFirst(a: string, c: char, b: string)
    requires c !in a
    ensures SplitOn(a + [c] + b, c) == [a] + SplitOn(b, c)
  {
    if a == [] {
      assert (a + [c] + b)[1..] == b;
    } else {
      var s := a + [c] + b;
      assert s[1..] == a[1..] + [c] + b;
      SplitOnFirst(a[1..], c, b);
      assert [a[0]] + a[1..] == a;
    }
  }

  lemma {:induction false} SplitJoin(parts: seq<string>, c: char)
    requires parts != []
    requires forall i :: 0 <= i < |parts| ==> c !in parts[i]
    ensures SplitOn(Join(parts, [c]), c) == parts
  {
    if |parts| == 1 {
      SplitOnPlain(parts[0], c);
    } else {
      SplitJoin(parts[1..], c);
      SplitOnFirst(parts[0], c, Join(parts[1..], [c]));
      assert parts == [parts[0]] + parts[1..];
    }
  }

  lemma {:induction false} ParsePairRender(k: string, v: string)
    requires '=' !in k
    ensures ParsePair(k + "=" + v) == (k, v)
  {
    if k == [] {
      assert (k + "=" + v)[1..] == v;
    } else {
      assert (k + "=" + v)[1..] == k[1..] + "=" + v;
      ParsePairRender(k[1..], v);
      assert [k[0]] + k[1..] == k;
    }
  }

  /** The query string reads back to the attributes and values it was built
      from, provided no attribute holds "&" or "=" and no value holds "&"
      (the relay encodes nothing). */
  lemma QueryStringRoundTrip(obj: seq<(string, string)>)
    requires forall i :: 0 <= i < |obj| ==> '&' !in obj[i].0 && '=' !in obj[i].0 && '&' !in obj[i].1
    ensures ParseQuery(Join(Renders(obj), "&")) == obj
  {
    if obj != [] {
      var rs := Renders(obj);
      forall i | 0 <= i < |rs| ensures '&' !in rs[i] {
        assert rs[i] == obj[i].0 + "=" + obj[i].1;
      }
      SplitJoin(rs, '&');
      JoinNonEmpty(rs, "&");
      ParseRenders(obj);
    }
  }

  /** Rendered items read back to the attributes and values they came from. */
  lemma {:induction false} ParseRenders(obj: seq<(string, string)>)
    requires forall i :: 0 <= i < |obj| ==> '=' !in obj[i].0
    ensures ParsePairs(Renders(obj)) == obj
  {
    if obj != [] {
      ParseRenders(obj[1..]);
      ParsePairRender(obj[0].0, obj[0].1);
      assert Renders(obj)[1..] == Renders(obj[1..]);
    }
  }

  lemma {:induction false} JoinNonEmpty(parts: seq<string>, sep: string)
    requires parts != [] && parts[0] != []
    ensures Join(parts, sep) != []
  {
  }
}
