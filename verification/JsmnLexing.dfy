/**
 Where a JSON string or a bare primitive ends in a text (include/jsmn.h, the loops of
 jsmn_parse_string and jsmn_parse_primitive).

 A text is a `string` whose characters stand for the bytes of the C buffer. Its end is the
 end of the buffer or the first NUL, whichever comes first.
 */
module JsmnLexing {
  import opened RfcTerminals

  /** How a scan ends: the position of the closing character, or one of the two errors. */
  datatype Scan = Closed(at: nat) | Invalid | Unterminated

  predicate AtEnd(js: string, i: nat) {
    i >= |js| || js[i] == '\0'
  }

  predicate IsHex(c: char) {
    '0' <= c <= '9' || 'A' <= c <= 'F' || 'a' <= c <= 'f'
  }

  predicate IsSimpleEscape(c: char) {
    c == '\"' || c == '/' || c == '\\' || c == 'b' || c == 'f' || c == 'r' || c == 'n' || c == 't'
  }

  predicate IsSpace(c: char) {
    c == '\t' || c == '\r' || c == '\n' || c == ' '
  }

  predicate IsOpening(c: char) {
    c == '{' || c == '['
  }

  predicate IsClosing(c: char) {
    c == '}' || c == ']'
  }

  /** The characters that jsmn_parse hands to jsmn_parse_primitive (its `default` case). */
  predicate StartsPrimitive(c: char) {
    !IsOpening(c) && !IsClosing(c) && !IsSpace(c) && c != '\"' && c != ':' && c != ','
  }

  predicate EndsPrimitive(c: char) {
    IsSpace(c) || c == ':' || c == ',' || c == ']' || c == '}'
  }

  predicate IsPrintable(c: char) {
    32 <= c as int < 127
  }

  /** The position after at most `left` hexadecimal digits, or None at a character that is not one. */
  function HexDigits(js: string, i: nat, left: nat): (r: Scan)
    requires i <= |js|
    ensures r != Unterminated
    ensures r.Closed? ==> i <= r.at <= |js|
    decreases left
  {
    if left == 0 || AtEnd(js, i) then Closed(i)
    else if IsHex(js[i]) then HexDigits(js, i + 1, left - 1)
    else Invalid
  }

  /** The closing quote of the string whose interior starts at `i`. */
  function ScanString(js: string, i: nat): (r: Scan)
    requires i <= |js|
    ensures r.Closed? ==> i <= r.at < |js| && js[r.at] == '\"'
    decreases |js| - i
  {
    if AtEnd(js, i) then Unterminated
    else if js[i] == '\"' then Closed(i)
    else if js[i] == '\\' && i + 1 < |js| then
      if IsSimpleEscape(js[i + 1]) then ScanString(js, i + 2)
      else if js[i + 1] == 'u' then
        var h := HexDigits(js, i + 2, 4);
        if h.Closed? then ScanString(js, h.at) else Invalid
      else Invalid
    else ScanString(js, i + 1)
  }

  /** The first position from `i` on that ends a primitive. */
  function ScanPrimitive(js: string, i: nat): (r: Scan)
    requires i <= |js|
    ensures r != Unterminated
    ensures r.Closed? ==> i <= r.at <= |js|
    ensures r.Closed? && !AtEnd(js, i) && !EndsPrimitive(js[i]) ==> i < r.at
    decreases |js| - i
  {
    if AtEnd(js, i) || EndsPrimitive(js[i]) then Closed(i)
    else if IsPrintable(js[i]) then ScanPrimitive(js, i + 1)
    else Invalid
  }

  // ---------------------------------------------------------------------------
  // The scans against the grammar
  // ---------------------------------------------------------------------------

  /** At `k` stands a backslash whose escape is neither simple nor four digits cut off by the end. */
  predicate BadEscape(js: string, k: nat) {
    && k + 1 < |js| && js[k] == '\\' && !IsEscaped(js[k + 1])
    && (js[k + 1] == 'u' ==> exists h | k + 2 <= h < k + 6 ::
            && h < |js| && js[h] != '\0' && !IsHexadecimal(js[h])
            && forall m | k + 2 <= m < h :: IsHexadecimal(js[m]))
  }

  lemma {:induction false} HexDigitsExact(js: string, i: nat, left: nat)
    requires i <= |js|
    ensures HexDigits(js, i, left).Invalid? <==>
            exists h | i <= h < i + left :: h < |js| && js[h] != '\0' && !IsHexadecimal(js[h]) && forall m | i <= m < h :: IsHexadecimal(js[m])
    ensures HexDigits(js, i, left).Closed? ==>
            var k := HexDigits(js, i, left).at;
            k <= i + left && (k < i + left ==> AtEnd(js, k)) && forall m | i <= m < k :: IsHexadecimal(js[m])
    decreases left
  {
    if left != 0 && !AtEnd(js, i) && IsHexadecimal(js[i]) {
      HexDigitsExact(js, i + 1, left - 1);
    } else if left != 0 && AtEnd(js, i) {
      assert i < |js| ==> js[i] == '\0' && !IsHexadecimal(js[i]);
    }
  }

  /** The four digits of a `\u` escape: the scan passes exactly when they are there, or the text ends first. */
  lemma HexEscapeScan(js: string, i: nat)
    requires i + 2 <= |js| && js[i] == '\\' && js[i + 1] == 'u'
    ensures i + 6 <= |js| && IsUnicodeEscape(js[i..i + 6]) ==> HexDigits(js, i + 2, 4) == Closed(i + 6)
    ensures HexDigits(js, i + 2, 4).Closed? ==>
            || (i + 6 <= |js| && IsUnicodeEscape(js[i..i + 6]) && HexDigits(js, i + 2, 4) == Closed(i + 6))
            || AtEnd(js, HexDigits(js, i + 2, 4).at)
    ensures HexDigits(js, i + 2, 4).Invalid? <==> BadEscape(js, i)
  {
    HexDigitsExact(js, i + 2, 4);
    if i + 6 <= |js| && IsUnicodeEscape(js[i..i + 6]) {
      assert js[i..i + 6][2] == js[i + 2] && js[i..i + 6][3] == js[i + 3];
      assert js[i..i + 6][4] == js[i + 4] && js[i..i + 6][5] == js[i + 5];
    }
    var h := HexDigits(js, i + 2, 4);
    if h.Closed? && h.at == i + 6 {
      assert IsHexadecimal(js[i + 2]) && IsHexadecimal(js[i + 3]) && IsHexadecimal(js[i + 4]) && IsHexadecimal(js[i + 5]);
    }
  }

  /**
   jsmn_parse_string accepts exactly the interiors of the grammar: it stops at `k` if and only
   if `k` holds a quote and everything before it is a string body.
   */
  lemma {:induction false} StringScanExact(js: string, i: nat, k: nat)
    requires i <= |js|
    ensures ScanString(js, i) == Closed(k) <==> i <= k < |js| && js[k] == '\"' && StringBody(js[i..k])
    decreases |js| - i
  {
    if AtEnd(js, i) {
      if i < k < |js| {
        assert js[i..k][0] == '\0';
      }
    } else if js[i] == '\"' {
      if i < k < |js| {
        assert js[i..k][0] == '\"';
      }
    } else if js[i] == '\\' && i + 1 < |js| {
      if i < k < |js| {
        assert js[i..k][0] == '\\';
      }
      if IsEscaped(js[i + 1]) {
        StringScanExact(js, i + 2, k);
        if i + 2 <= k < |js| {
          assert js[i..k][1] == js[i + 1];
          assert js[i..k][2..] == js[i + 2..k];
        }
      } else if js[i + 1] == 'u' {
        StringScanAtUnicode(js, i, k);
      } else if i + 2 <= k < |js| {
        assert js[i..k][1] == js[i + 1];
      }
    } else {
      StringScanExact(js, i + 1, k);
      if i < k < |js| {
        assert js[i..k][0] == js[i];
        assert js[i..k][1..] == js[i + 1..k];
      }
    }
  }

  lemma {:induction false} StringScanAtUnicode(js: string, i: nat, k: nat)
    requires i + 1 < |js| && js[i] == '\\' && js[i + 1] == 'u'
    ensures ScanString(js, i) == Closed(k) <==> i <= k < |js| && js[k] == '\"' && StringBody(js[i..k])
    decreases |js| - i, 0
  {
    HexEscapeScan(js, i);
    var h := HexDigits(js, i + 2, 4);
    if i <= k < |js| && js[k] == '\"' && StringBody(js[i..k]) {
      assert i + 2 <= k && js[i..k][0] == '\\' && js[i..k][1] == 'u';
      assert |js[i..k]| >= 6 && IsUnicodeEscape(js[i..k][..6]);
      assert js[i..k][..6] == js[i..i + 6];
      assert js[i..k][6..] == js[i + 6..k];
      StringScanExact(js, i + 6, k);
    }
    if ScanString(js, i) == Closed(k) {
      assert h.Closed?;
      assert ScanString(js, h.at) == Closed(k);
      StringScanExact(js, i + 6, k);
      assert js[i..k][..6] == js[i..i + 6];
      assert js[i..k][6..] == js[i + 6..k];
    }
  }

  /**
   The scan reports an invalid character exactly when a well-formed prefix runs into a bad
   escape; in every other failure the text ends inside the string.
   */
  lemma {:induction false} StringScanInvalidExact(js: string, i: nat)
    requires i <= |js|
    ensures ScanString(js, i).Invalid? <==> exists k | i <= k < |js| :: StringBody(js[i..k]) && BadEscape(js, k)
    decreases |js| - i
  {
    if ScanString(js, i).Invalid? {
      var k := InvalidWitness(js, i);
    }
    forall k | i <= k < |js| && StringBody(js[i..k]) && BadEscape(js, k)
      ensures ScanString(js, i).Invalid?
    {
      BadEscapeStops(js, i, k);
    }
  }

  lemma {:induction false} InvalidWitness(js: string, i: nat) returns (k: nat)
    requires i <= |js| && ScanString(js, i).Invalid?
    ensures i <= k < |js| && StringBody(js[i..k]) && BadEscape(js, k)
    decreases |js| - i
  {
    k := i;
    if js[i] == '\\' && i + 1 < |js| {
      if IsEscaped(js[i + 1]) {
        k := InvalidWitness(js, i + 2);
        assert js[i..k][2..] == js[i + 2..k];
      } else if js[i + 1] == 'u' {
        HexEscapeScan(js, i);
        if HexDigits(js, i + 2, 4).Closed? {
          k := InvalidWitness(js, i + 6);
          assert js[i..k][..6] == js[i..i + 6];
          assert js[i..k][6..] == js[i + 6..k];
        }
      }
    } else {
      k := InvalidWitness(js, i + 1);
      assert js[i..k][1..] == js[i + 1..k];
    }
  }

  lemma {:induction false} BadEscapeStops(js: string, i: nat, k: nat)
    requires i <= k < |js| && StringBody(js[i..k]) && BadEscape(js, k)
    ensures ScanString(js, i).Invalid?
    decreases k - i
  {
    var s := js[i..k];
    if s == "" {
      if js[k + 1] == 'u' {
        HexEscapeScan(js, k);
      }
    } else {
      assert s[0] == js[i];
      if s[0] != '\\' {
        assert s[1..] == js[i + 1..k];
        BadEscapeStops(js, i + 1, k);
      } else if |s| >= 2 && IsEscaped(s[1]) {
        assert s[1] == js[i + 1] && s[2..] == js[i + 2..k];
        BadEscapeStops(js, i + 2, k);
      } else {
        assert s[..6] == js[i..i + 6] && s[6..] == js[i + 6..k];
        assert s[..6][1] == js[i + 1];
        HexEscapeScan(js, i);
        BadEscapeStops(js, i + 6, k);
      }
    }
  }

  /** The end of a text, and what separates a primitive from what follows. */
  predicate Separates(js: string, k: nat) {
    || k >= |js| || js[k] == '\0' || js[k] == '\t' || js[k] == '\n' || js[k] == '\r' || js[k] == ' '
    || js[k] == ',' || js[k] == ':' || js[k] == ']' || js[k] == '}'
  }

  /** A primitive ends at `k` exactly when only printable, non-separating characters come before. */
  lemma {:induction false} PrimitiveScanExact(js: string, i: nat, k: nat)
    requires i <= |js|
    ensures ScanPrimitive(js, i) == Closed(k) <==>
            i <= k <= |js| && Separates(js, k) && forall m | i <= m < k :: ' ' < js[m] <= '~' && !Separates(js, m)
    decreases |js| - i
  {
    if !Separates(js, i) && ' ' < js[i] <= '~' {
      PrimitiveScanExact(js, i + 1, k);
    } else if i < k {
      assert AtEnd(js, i) && i < |js| ==> !IsPrintable(js[i]);
    }
  }
}
