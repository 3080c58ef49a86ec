/** The video card's duration text: `M:SS` below an hour, `H:MM:SS` from an
    hour on. Reading the fields back gives the number of seconds again. */
module VideoInfoView {
  import opened Wrappers
  import opened JsStrings

  /** `n.toString().padStart(2, '0')` for n below 100. */
  function Pad2(n: nat): (r: string)
    requires n < 100
    ensures |r| == 2 && AllDigits(r) && DigitsValue(r) == n
  {
    NatToStringRoundTrip(n);
    if n < 10 then
      DigitsValueLeadingZero(NatToString(n));
      "0" + NatToString(n)
    else NatToString(n)
  }

  function Hours(seconds: nat): nat { seconds / 3600 }
  function Minutes(seconds: nat): nat { (seconds % 3600) / 60 }
  function Secs(seconds: nat): nat { seconds % 60 }

  /** The three fields never overflow into each other. */
  lemma FieldsInRange(seconds: nat)
    ensures Minutes(seconds) < 60 && Secs(seconds) < 60
    ensures Hours(seconds) * 3600 + Minutes(seconds) * 60 + Secs(seconds) == seconds
    ensures Hours(seconds) > 0 <==> seconds >= 3600
  {
    var h := seconds / 3600;
    var rest := seconds % 3600;
    assert seconds == h * 3600 + rest;
    assert rest == (rest / 60) * 60 + rest % 60;
    assert rest % 60 == seconds % 60 by {
      assert seconds == (h * 60) * 60 + rest;
    }
  }

  /** formatDuration. */
  function FormatDuration(seconds: nat): (r: string)
    ensures seconds < 3600 ==> r == NatToString(Minutes(seconds)) + ":" + Pad2(Secs(seconds))
    ensures seconds >= 3600 ==> r == NatToString(Hours(seconds)) + ":" + Pad2(Minutes(seconds)) + ":" + Pad2(Secs(seconds))
  {
    FieldsInRange(seconds);
    var hours := Hours(seconds);
    var minutes := Minutes(seconds);
    var secs := Secs(seconds);
    if hours > 0 then NatToString(hours) + ":" + Pad2(minutes) + ":" + Pad2(secs)
    else NatToString(minutes) + ":" + Pad2(secs)
  }

  /** `text.split(':')`. */
  function SplitColon(t: string): (r: seq<string>)
    ensures |r| >= 1
  {
    if t == [] then [""]
    else
      var rest := SplitColon(t[1..]);
      if t[0] == ':' then [""] + rest else [[t[0]] + rest[0]] + rest[1..]
  }

  lemma {:induction false} SplitColonPrefix(a: string, u: string)
    requires ':' !in a
    ensures SplitColon(a + u) == [a + SplitColon(u)[0]] + SplitColon(u)[1..]
  {
    var su := SplitColon(u);
    if a != [] {
      var t := a + u;
      assert t[0] == a[0] && a[0] != ':';
      assert t[1..] == a[1..] + u;
      SplitColonPrefix(a[1..], u);
      var rest := SplitColon(t[1..]);
      assert rest == [a[1..] + su[0]] + su[1..];
      assert SplitColon(t) == [[t[0]] + rest[0]] + rest[1..];
      assert rest[1..] == su[1..];
      assert [a[0]] + (a[1..] + su[0]) == a + su[0];
    } else {
      assert a + u == u;
      assert a + su[0] == su[0];
      assert su == [su[0]] + su[1..];
    }
  }

  lemma SplitColonFields(a: string, b: string)
    requires ':' !in a && ':' !in b
    ensures SplitColon(a + ":" + b) == [a, b]
  {
    SplitColonPrefix(b, "");
    assert b + "" == b;
    assert SplitColon("") == [""];
    assert SplitColon(b) == [b];
    var cb := ":" + b;
    assert cb[0] == ':' && cb[1..] == b;
    assert SplitColon(cb) == [""] + SplitColon(b) == ["", b];
    assert a + ":" + b == a + cb;
    SplitColonPrefix(a, cb);
    assert SplitColon(a + cb) == [a + ""] + [b];
    assert a + "" == a;
  }

  lemma DigitsHaveNoColon(d: string)
    requires AllDigits(d)
    ensures ':' !in d
  {
  }

  predicate ValidField(f: string) {
    f != [] && AllDigits(f)
  }

  /** The number of seconds a duration text stands for: two or three
      fields of digits, the later ones below 60. */
  function ParseDuration(t: string): (r: Option<nat>)
  {
    var f := SplitColon(t);
    if |f| == 2 && ValidField(f[0]) && ValidField(f[1]) && DigitsValue(f[1]) < 60 then
      Some(DigitsValue(f[0]) * 60 + DigitsValue(f[1]))
    else if |f| == 3 && ValidField(f[0]) && ValidField(f[1]) && ValidField(f[2])
            && DigitsValue(f[1]) < 60 && DigitsValue(f[2]) < 60 then
      Some(DigitsValue(f[0]) * 3600 + DigitsValue(f[1]) * 60 + DigitsValue(f[2]))
    else None
  }

  /** Below an hour the text has two fields, from an hour on three, and the
      hours are then never zero; the later fields are two digits. */
  lemma FormatDurationFields(seconds: nat)
    ensures seconds < 3600 ==> SplitColon(FormatDuration(seconds)) == [NatToString(Minutes(seconds)), Pad2(Secs(seconds))]
    ensures seconds >= 3600 ==>
      SplitColon(FormatDuration(seconds)) == [NatToString(Hours(seconds)), Pad2(Minutes(seconds)), Pad2(Secs(seconds))]
      && DigitsValue(NatToString(Hours(seconds))) > 0
  {
    FieldsInRange(seconds);
    var m := NatToString(Minutes(seconds));
    var s := Pad2(Secs(seconds));
    DigitsHaveNoColon(m);
    DigitsHaveNoColon(s);
    if seconds < 3600 {
      SplitColonFields(m, s);
    } else {
      var h := NatToString(Hours(seconds));
      var mm := Pad2(Minutes(seconds));
      DigitsHaveNoColon(h);
      DigitsHaveNoColon(mm);
      SplitColonFields(mm, s);
      var tail := ":" + (mm + ":" + s);
      assert tail[0] == ':' && tail[1..] == mm + ":" + s;
      assert SplitColon(tail) == [""] + SplitColon(mm + ":" + s) == ["", mm, s];
      assert h + ":" + mm + ":" + s == h + tail;
      SplitColonPrefix(h, tail);
      assert SplitColon(h + tail) == [h + ""] + [mm, s];
      assert h + "" == h;
      assert FormatDuration(seconds) == h + ":" + mm + ":" + s;
      NatToStringRoundTrip(Hours(seconds));
    }
  }

  /** Reading the text back gives the seconds it was made from. */
  lemma FormatDurationRoundTrip(seconds: nat)
    ensures ParseDuration(FormatDuration(seconds)) == Some(seconds)
  {
    FieldsInRange(seconds);
    FormatDurationFields(seconds);
    NatToStringRoundTrip(Minutes(seconds));
    NatToStringRoundTrip(Hours(seconds));
  }
}
