/** String helpers of the C++ tool: `splitString` (a `std::getline` loop)
    and `msToTimeString` (an `HH:MM:SS.mmm` formatter). */
module Utils {
  import opened Text

  // ---------------------------------------------------------------------------
  // splitString
  // ---------------------------------------------------------------------------

  /** What a `getline(stream, token, d)` loop yields on `s` when `cur` has
      already been read into the current token: every delimiter ends a token
      (so interior empty tokens are kept), and the text after the last
      delimiter is a token only when it is not empty. */
  function SplitFrom(s: string, d: char, cur: string): seq<string>
    decreases |s|
  {
    if s == [] then (if cur == [] then [] else [cur])
    else if s[0] == d then [cur] + SplitFrom(s[1..], d, [])
    else SplitFrom(s[1..], d, cur + [s[0]])
  }

  /** Reference definition of the tokens `splitString(s, d)` returns. */
  function Split(s: string, d: char): seq<string>
  {
    SplitFrom(s, d, [])
  }

  /** The tokens joined back with the delimiter between them. */
  function Join(ts: seq<string>, d: char): string
  {
    if |ts| == 0 then [] else if |ts| == 1 then ts[0] else ts[0] + [d] + Join(ts[1..], d)
  }

  /** Text made of lines, each one followed by a newline. */
  function JoinLines(lines: seq<string>): string
  {
    if lines == [] then [] else lines[0] + "\n" + JoinLines(lines[1..])
  }

  /** splitString: reads `str` character by character as the getline loop
      does, pushing a token at every delimiter and the non-empty rest at the end. */
  method SplitString(str: string, delimiter: char) returns (tokens: seq<string>)
    ensures tokens == Split(str, delimiter)
  {
    tokens := [];
    var token := "";
    var i := 0;
    while i < |str|
      invariant 0 <= i <= |str|
      invariant tokens + SplitFrom(str[i..], delimiter, token) == Split(str, delimiter)
    {
      assert str[i..][1..] == str[i + 1..];
      if str[i] == delimiter {
        tokens := tokens + [token];
        token := "";
      } else {
        token := token + [str[i]];
      }
      i := i + 1;
    }
    if token != "" {
      tokens := tokens + [token];
    }
  }

  lemma {:induction false} SplitFromNoDelimiter(s: string, d: char, cur: string)
    requires d !in cur
    ensures forall t | t in SplitFrom(s, d, cur) :: d !in t
    decreases |s|
  {
    if s != [] {
      if s[0] == d {
        SplitFromNoDelimiter(s[1..], d, []);
      } else {
        SplitFromNoDelimiter(s[1..], d, cur + [s[0]]);
      }
    }
  }

  /** No token contains the delimiter; the empty string has no token. */
  lemma SplitNoDelimiter(s: string, d: char)
    ensures forall t | t in Split(s, d) :: d !in t
    ensures s == [] <==> Split(s, d) == []
  {
    SplitFromNoDelimiter(s, d, []);
    if s != [] {
      SplitFromNonEmpty(s, d, []);
    }
  }

  lemma {:induction false} SplitFromNonEmpty(s: string, d: char, cur: string)
    requires s != [] || cur != []
    ensures SplitFrom(s, d, cur) != []
    decreases |s|
  {
    if s != [] && s[0] != d {
      SplitFromNonEmpty(s[1..], d, cur + [s[0]]);
    }
  }

  lemma JoinCons(t: string, ts: seq<string>, d: char)
    requires ts != []
    ensures Join([t] + ts, d) == t + [d] + Join(ts, d)
  {
    assert ([t] + ts)[1..] == ts;
  }

  lemma {:induction false} JoinSplitFrom(s: string, d: char, cur: string)
    requires s == [] || s[|s| - 1] != d
    ensures Join(SplitFrom(s, d, cur), d) == cur + s
    decreases |s|
  {
    if s == [] {
    } else if s[0] == d {
      var rest := s[1..];
      JoinSplitFrom(rest, d, []);
      SplitFromNonEmpty(rest, d, []);
      JoinCons(cur, SplitFrom(rest, d, []), d);
      assert s == [d] + rest;
    } else {
      JoinSplitFrom(s[1..], d, cur + [s[0]]);
      assert cur + [s[0]] + s[1..] == cur + s;
    }
  }

  lemma {:induction false} JoinSplitFromTerminated(s: string, d: char, cur: string)
    requires s != [] && s[|s| - 1] == d
    ensures Join(SplitFrom(s, d, cur), d) + [d] == cur + s
    decreases |s|
  {
    var rest := s[1..];
    assert s == [s[0]] + rest;
    if s[0] == d {
      if rest == [] {
        assert SplitFrom(s, d, cur) == [cur];
      } else {
        var xs := SplitFrom(rest, d, []);
        assert SplitFrom(s, d, cur) == [cur] + xs;
        SplitFromNonEmpty(rest, d, []);
        calc {
          Join(SplitFrom(s, d, cur), d) + [d];
          == { JoinCons(cur, xs, d); }
          (cur + [d] + Join(xs, d)) + [d];
          == (cur + [d]) + (Join(xs, d) + [d]);
          == { JoinSplitFromTerminated(rest, d, []); assert [] + rest == rest; }
          (cur + [d]) + rest;
        }
      }
    } else {
      JoinSplitFromTerminated(rest, d, cur + [s[0]]);
      assert (cur + [s[0]]) + rest == cur + s;
    }
  }

  /** Joining the tokens with the delimiter gives the input back, except that
      a trailing delimiter is lost. */
  lemma SplitJoinRoundTrip(s: string, d: char)
    ensures s != [] && s[|s| - 1] != d ==> Join(Split(s, d), d) == s
    ensures s != [] && s[|s| - 1] == d ==> Join(Split(s, d), d) + [d] == s
  {
    if s != [] {
      if s[|s| - 1] == d {
        JoinSplitFromTerminated(s, d, []);
      } else {
        JoinSplitFrom(s, d, []);
      }
    }
  }

  /** Interior empty tokens are kept and a trailing delimiter adds none. */
  lemma SplitExamples()
    ensures Split("a,,b", ',') == ["a", "", "b"]
    ensures Split("a,b,", ',') == ["a", "b"]
    ensures Split(",", ',') == [""]
  {
    assert SplitFrom("", ',', "b") == ["b"];
    assert "" + ['b'] == "b" && "" + ['a'] == "a";
    assert "b"[1..] == "" && "a,,b"[1..] == ",,b" && "a,b,"[1..] == ",b,";
    assert SplitFrom("b", ',', "") == SplitFrom("", ',', "b");
    assert SplitFrom(",b", ',', "") == [""] + SplitFrom("b", ',', "");
    assert SplitFrom(",,b", ',', "a") == ["a"] + SplitFrom(",b", ',', "");
    assert SplitFrom("a,,b", ',', "") == SplitFrom(",,b", ',', "a");
    assert SplitFrom(",", ',', "b") == ["b"] + SplitFrom("", ',', "");
    assert SplitFrom("b,", ',', "") == SplitFrom(",", ',', "b");
    assert SplitFrom(",b,", ',', "a") == ["a"] + SplitFrom("b,", ',', "");
    assert SplitFrom("a,b,", ',', "") == SplitFrom(",b,", ',', "a");
    assert SplitFrom(",", ',', "") == [""];
  }

  lemma {:induction false} SplitFromLine(line: string, rest: string, cur: string)
    requires '\n' !in line
    ensures SplitFrom(line + "\n" + rest, '\n', cur) == [cur + line] + SplitFrom(rest, '\n', [])
    decreases |line|
  {
    var s := line + "\n" + rest;
    if line == [] {
      assert s[1..] == rest;
      assert cur + line == cur;
    } else {
      assert s[1..] == line[1..] + "\n" + rest;
      SplitFromLine(line[1..], rest, cur + [line[0]]);
      assert cur + [line[0]] + line[1..] == cur + line;
    }
  }

  /** Splitting newline-terminated text at '\n' gives back its lines. */
  lemma {:induction false} SplitJoinLines(lines: seq<string>)
    requires forall l | l in lines :: '\n' !in l
    ensures Split(JoinLines(lines), '\n') == lines
    decreases |lines|
  {
    if lines != [] {
      SplitFromLine(lines[0], JoinLines(lines[1..]), []);
      SplitJoinLines(lines[1..]);
      assert [] + lines[0] == lines[0];
    }
  }

  lemma {:induction false} JoinLinesAppend(lines: seq<string>, more: seq<string>)
    ensures JoinLines(lines + more) == JoinLines(lines) + JoinLines(more)
    decreases |lines|
  {
    if lines != [] {
      assert (lines + more)[1..] == lines[1..] + more;
      JoinLinesAppend(lines[1..], more);
    } else {
      assert lines + more == more;
    }
  }

  // ---------------------------------------------------------------------------
  // msToTimeString
  // ---------------------------------------------------------------------------

  /** The layout `H:MM:SS.mmm`: at least two hour digits, then fixed-width
      minutes, seconds and milliseconds fields. */
  predicate IsTimeString(s: string)
  {
    && |s| >= 12
    && s[|s| - 10] == ':' && s[|s| - 7] == ':' && s[|s| - 4] == '.'
    && AllDigits(s[..|s| - 10])
    && AllDigits(s[|s| - 9..|s| - 7])
    && AllDigits(s[|s| - 6..|s| - 4])
    && AllDigits(s[|s| - 3..])
  }

  function HoursField(s: string): nat requires IsTimeString(s) { DecimalValue(s[..|s| - 10]) }
  function MinutesField(s: string): nat requires IsTimeString(s) { DecimalValue(s[|s| - 9..|s| - 7]) }
  function SecondsField(s: string): nat requires IsTimeString(s) { DecimalValue(s[|s| - 6..|s| - 4]) }
  function MillisField(s: string): nat requires IsTimeString(s) { DecimalValue(s[|s| - 3..]) }

  /** The number of milliseconds a time string denotes. */
  function TimeStringValue(s: string): nat
    requires IsTimeString(s)
  {
    HoursField(s) * 3600000 + MinutesField(s) * 60000 + SecondsField(s) * 1000 + MillisField(s)
  }

  /** The text `msToTimeString` prints for the fields h, m, s and f. */
  function TimeString(h: nat, m: nat, s: nat, f: nat): string
  {
    ZeroPad(h, 2) + ":" + ZeroPad(m, 2) + ":" + ZeroPad(s, 2) + "." + ZeroPad(f, 3)
  }

  /** Hours take exactly two characters iff they are below 100. */
  lemma HoursWidth(h: nat)
    ensures |ZeroPad(h, 2)| >= 2
    ensures |ZeroPad(h, 2)| == 2 <==> h < 100
  {
    ZeroPadFacts(h, 2);
    assert Pow10(2) == 100;
    DecimalShape(h);
  }

  /** The printed fields read back as the numbers printed; the text is 12
      characters long exactly when the hours fit in two digits. */
  lemma TimeStringFields(h: nat, m: nat, s: nat, f: nat)
    requires m < 60 && s < 60 && f < 1000
    ensures IsTimeString(TimeString(h, m, s, f))
    ensures HoursField(TimeString(h, m, s, f)) == h
    ensures MinutesField(TimeString(h, m, s, f)) == m
    ensures SecondsField(TimeString(h, m, s, f)) == s
    ensures MillisField(TimeString(h, m, s, f)) == f
    ensures |TimeString(h, m, s, f)| == 10 + NumeralWidth(h, 2)
    ensures |TimeString(h, m, s, f)| == 12 <==> h < 100
  {
    TimePads(h, m, s, f);
    TimeLayout(ZeroPad(h, 2), ZeroPad(m, 2), ZeroPad(s, 2), ZeroPad(f, 3));
  }

  /** The four padded fields: numerals for h, m, s and f, of widths two
      (or more for hours of 100 and above), two, two and three. */
  lemma TimePads(h: nat, m: nat, s: nat, f: nat)
    requires m < 60 && s < 60 && f < 1000
    ensures IsNumeral(ZeroPad(h, 2), h) && IsNumeral(ZeroPad(m, 2), m)
    ensures IsNumeral(ZeroPad(s, 2), s) && IsNumeral(ZeroPad(f, 3), f)
    ensures |ZeroPad(h, 2)| == NumeralWidth(h, 2) >= 2
    ensures |ZeroPad(h, 2)| == 2 <==> h < 100
    ensures |ZeroPad(m, 2)| == 2 && |ZeroPad(s, 2)| == 2 && |ZeroPad(f, 3)| == 3
  {
    ZeroPadFacts(h, 2);
    ZeroPadFacts(m, 2);
    ZeroPadFacts(s, 2);
    ZeroPadFacts(f, 3);
    HoursWidth(h);
    assert Pow10(2) == 100 && Pow10(3) == 1000;
  }

  /** Where the four fields sit in `hh:mm:ss.fff`. */
  lemma TimeLayout(hh: string, mm: string, ss: string, fff: string)
    requires |hh| >= 2 && |mm| == 2 && |ss| == 2 && |fff| == 3
    requires AllDigits(hh) && AllDigits(mm) && AllDigits(ss) && AllDigits(fff)
    ensures var r := hh + ":" + mm + ":" + ss + "." + fff;
      && |r| == |hh| + 10
      && IsTimeString(r)
      && r[..|r| - 10] == hh && r[|r| - 9..|r| - 7] == mm
      && r[|r| - 6..|r| - 4] == ss && r[|r| - 3..] == fff
  {
    var tail := ":" + mm + ":" + ss + "." + fff;
    TailFields(mm, ss, fff);
    var r := hh + ":" + mm + ":" + ss + "." + fff;
    assert r == hh + tail;
    assert r[..|r| - 10] == hh;
    assert r[|r| - 9..|r| - 7] == tail[1..3];
    assert r[|r| - 6..|r| - 4] == tail[4..6];
    assert r[|r| - 3..] == tail[7..];
  }

  lemma TailFields(mm: string, ss: string, fff: string)
    requires |mm| == 2 && |ss| == 2 && |fff| == 3
    ensures var tail := ":" + mm + ":" + ss + "." + fff;
      |tail| == 10 && tail[0] == ':' && tail[3] == ':' && tail[6] == '.' &&
      tail[1..3] == mm && tail[4..6] == ss && tail[7..] == fff
  {
  }

  /** msToTimeString: strips hours, minutes and seconds off `ms` in turn
      (`ms %= ...`) and prints the four fields zero-padded to minimum widths
      2, 2, 2 and 3. Reading the text back gives `ms`; minutes and seconds are
      below 60; the text has exactly 12 characters iff the hours fit in two
      digits, and more hours are printed in full. */
  method MsToTimeString(ms: nat) returns (r: string)
    ensures IsTimeString(r)
    ensures TimeStringValue(r) == ms
    ensures MinutesField(r) < 60 && SecondsField(r) < 60 && MillisField(r) < 1000
    ensures |r| == 12 <==> ms < 360000000
    ensures |r| == 10 + NumeralWidth(ms / 3600000, 2)
  {
    var rest := ms;
    var hours := rest / 3600000;
    rest := rest % 3600000;
    var minutes := rest / 60000;
    rest := rest % 60000;
    var seconds := rest / 1000;
    rest := rest % 1000;
    r := TimeString(hours, minutes, seconds, rest);
    TimeStringFields(hours, minutes, seconds, rest);
    assert hours * 3600000 + minutes * 60000 + seconds * 1000 + rest == ms;
  }
}
