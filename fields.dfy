/**
 * Property lines: `field` (omission of empty values, CR/LF escaping, folding)
 * and `toICalTimeField` (the choice between the UTC form and the TZID form).
 */
module Fields {
  import opened Utf8
  import opened Php
  import opened PhysicalLines
  import opened Folding

  /** The arguments `field` passes to `splitField`. */
  const FoldLimit := 72
  const FoldIndent := "\t"
  const FoldBreak := "\n"

  /** `str_replace(["\r", "\n"], ['\r', '\n'], $s)`: first every CR, then every LF,
      becomes a backslash and a letter. */
  function Escape(s: string): string {
    ReplaceChar(ReplaceChar(s, '\r', "\\r"), '\n', "\\n")
  }

  /** The escaped text has no raw CR or LF, and text without them is unchanged. */
  lemma EscapeNoBreaks(s: string)
    ensures '\r' !in Escape(s) && '\n' !in Escape(s)
    ensures '\r' !in s && '\n' !in s ==> Escape(s) == s
  {
    ReplaceCharChars(s, '\r', "\\r");
    ReplaceCharChars(ReplaceChar(s, '\r', "\\r"), '\n', "\\n");
  }

  lemma EscapeConcat(a: string, b: string)
    ensures Escape(a + b) == Escape(a) + Escape(b)
  {
    ReplaceCharConcat(a, b, '\r', "\\r");
    ReplaceCharConcat(ReplaceChar(a, '\r', "\\r"), ReplaceChar(b, '\r', "\\r"), '\n', "\\n");
  }

  /** Backslashes are not escaped, so an escaped LF and a literal backslash-n look the same. */
  lemma EscapeNotInjective()
    ensures Escape("\n") == Escape("\\n")
  {
  }

  /** `field($name, $value)`. */
  function Field(name: string, value: string): string {
    if Empty(value) then "" else Fold(Escape(name + ":" + value), FoldLimit, FoldIndent, FoldBreak)
  }

  /** The property is omitted exactly when its value is empty ("" or "0"). */
  lemma FieldOmitted(name: string, value: string)
    ensures Field(name, value) == "" <==> Empty(value)
  {
    if !Empty(value) {
      var e := Escape(name + ":" + value);
      EscapeConcat(name, ":" + value);
      assert |e| > 0;
      EscapeNoBreaks(name + ":" + value);
      FoldUnfold(e, FoldLimit, FoldIndent);
    }
  }

  /** Unfolding a present property gives back `NAME:VALUE` with CR and LF escaped. */
  lemma FieldUnfold(name: string, value: string)
    requires !Empty(value)
    ensures Unfolded(Field(name, value), FoldIndent) == Escape(name + ":" + value)
  {
    EscapeNoBreaks(name + ":" + value);
    FoldUnfold(Escape(name + ":" + value), FoldLimit, FoldIndent);
  }

  /** Every physical line of a property is at most 72 bytes, every line after the
      first is a tab and at least one code point, and there is no raw CR: the only
      raw LFs are the fold breaks. */
  lemma FieldLines(name: string, value: string)
    ensures var ls := Lines(Field(name, value));
      Bounded(ls, FoldLimit) && Continued(ls, FoldIndent)
    ensures '\r' !in Field(name, value)
    ensures var ls := Lines(Field(name, value));
      Join("\n", ls) == Field(name, value) && forall k :: 0 <= k < |ls| ==> '\n' !in ls[k]
  {
    LinesJoin(Field(name, value));
    LinesNoBreak(Field(name, value));
    if !Empty(value) {
      var e := Escape(name + ":" + value);
      assert Bytes(FoldIndent) == 1;
      EscapeNoBreaks(name + ":" + value);
      FoldBound(e, FoldLimit, FoldIndent);
      FoldContinuation(e, FoldLimit, FoldIndent);
      FoldChars(e, FoldLimit, FoldIndent, FoldBreak);
    } else {
      assert Lines("") == [""];
    }
  }

  /** A present property begins with any prefix of `NAME:` that has no CR or LF
      and fits on one line. */
  lemma FieldPrefix(name: string, value: string, p: string)
    requires !Empty(value)
    requires p <= name + ":" && '\r' !in p && '\n' !in p && Bytes(p) <= FoldLimit
    ensures p <= Field(name, value)
  {
    var s := name + ":" + value;
    assert s == p + s[|p|..];
    EscapeConcat(p, s[|p|..]);
    EscapeNoBreaks(p);
    var e := Escape(s);
    assert e[..|p|] == p;
    FoldShort(p, FoldLimit, FoldIndent, FoldBreak);
    FoldPrefix(e, |p|, FoldLimit, FoldIndent, FoldBreak);
  }

  /** A property whose line fits is emitted unchanged. */
  lemma FieldShort(name: string, value: string)
    requires !Empty(value)
    requires '\r' !in name + ":" + value && '\n' !in name + ":" + value
    requires Bytes(name + ":" + value) <= FoldLimit
    ensures Field(name, value) == name + ":" + value
  {
    EscapeNoBreaks(name + ":" + value);
    FoldShort(name + ":" + value, FoldLimit, FoldIndent, FoldBreak);
  }

  /** The fixed CLASS property fits on one line and is emitted as it is. */
  lemma ClassPrivate()
    ensures Field("CLASS", "PRIVATE") == "CLASS:PRIVATE"
  {
    var line := "CLASS:PRIVATE";
    assert "CLASS" + ":" + "PRIVATE" == line;
    assert Bytes(line) <= FoldLimit by {
      assert |line| == 13;
    }
    assert forall k :: 0 <= k < |line| ==> 'A' <= line[k] <= 'Z' || line[k] == ':';
    FieldShort("CLASS", "PRIVATE");
  }

  /** The zone used when an event gives none. */
  const DefaultZone := "Asia/Tokyo"

  /** `toICalTimeField($field, $timeString, $zoneString)`. The conversion by
      `DateTime` is the parameter localTime: the `Ymd\THis` text of the instant
      timeString in the named zone. */
  function TimeField(field: string, timeString: string, zoneString: string,
                     localTime: (string, string) -> string): string
  {
    var zone := if Empty(zoneString) then DefaultZone else zoneString;
    if zoneString == "UTC" then field + ":" + localTime(timeString, zone) + "Z"
    else field + ";TZID=" + zone + ":" + localTime(timeString, zone)
  }

  /** The property name comes first; a colon follows it exactly in the UTC form,
      which ends in 'Z'; an event without a zone is given in the default zone. */
  lemma TimeFieldForm(field: string, timeString: string, zoneString: string,
                      localTime: (string, string) -> string)
    ensures var r := TimeField(field, timeString, zoneString, localTime);
      |r| > |field| && r[..|field|] == field
      && (r[|field|] == ':' <==> zoneString == "UTC")
      && (zoneString == "UTC" ==> r[|r| - 1] == 'Z')
      && (Empty(zoneString) ==>
            r == field + ";TZID=" + DefaultZone + ":" + localTime(timeString, DefaultZone))
  {
  }
}
