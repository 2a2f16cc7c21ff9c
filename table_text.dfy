/**
  `clean_string`, which `pretty_table` (in wifi.py and, written again, in
  wigle.py) applies to every cell before adding it to the table: a string
  is encoded to ASCII with replacement, decoded again, and every
  character that is not printable becomes '?'; any other value is kept.
 */
module TableText {

  /** A table cell: a string, or some other value (a number, a missing
      value) that `clean_string` returns as it is. */
  datatype Cell<V> = Text(s: string) | NonText(v: V)

  predicate IsAscii(c: char)
  {
    c < 128 as char
  }

  /** `str.isprintable()` on an ASCII character: space through tilde. */
  predicate IsPrintable(c: char)
  {
    ' ' <= c <= '~'
  }

  /** `s.encode("ascii", "replace").decode()`: every character outside
      ASCII becomes one '?'. */
  function AsciiReplace(s: string): (r: string)
    ensures |r| == |s|
    ensures forall i | 0 <= i < |s| :: IsAscii(r[i]) && (IsAscii(s[i]) ==> r[i] == s[i]) && (!IsAscii(s[i]) ==> r[i] == '?')
    decreases |s|
  {
    if |s| == 0 then ""
    else [if IsAscii(s[0]) then s[0] else '?'] + AsciiReplace(s[1..])
  }

  /** The join over an ASCII string: each character kept if printable,
      else '?'. */
  function MarkUnprintable(s: string): (r: string)
    requires forall i | 0 <= i < |s| :: IsAscii(s[i])
    ensures |r| == |s|
    ensures forall i | 0 <= i < |s| :: IsPrintable(r[i]) && (IsPrintable(s[i]) ==> r[i] == s[i]) && (!IsPrintable(s[i]) ==> r[i] == '?')
    decreases |s|
  {
    if |s| == 0 then ""
    else [if IsPrintable(s[0]) then s[0] else '?'] + MarkUnprintable(s[1..])
  }

  /** `clean_string` on a string: a cleaned string is all printable, so a
      table cell never holds a control character. */
  function CleanText(s: string): (r: string)
    ensures |r| == |s|
    ensures forall i | 0 <= i < |r| :: IsPrintable(r[i])
  {
    MarkUnprintable(AsciiReplace(s))
  }

  /** `clean_string` on any cell. */
  function CleanString<V>(cell: Cell<V>): (r: Cell<V>)
    ensures cell.NonText? ==> r == cell
    ensures cell.Text? ==> r.Text? && |r.s| == |cell.s|
  {
    match cell
    case Text(s) => Text(CleanText(s))
    case NonText(_) => cell
  }

  /** The two stages together: the cleaned text has the length of the
      original, a printable ASCII character stays where it was, and every
      other character (control characters, DEL, anything outside ASCII)
      is replaced by exactly one '?'. */
  lemma CleanTextChars(s: string)
    ensures |CleanText(s)| == |s|
    ensures forall i | 0 <= i < |s| ::
              CleanText(s)[i] == if IsPrintable(s[i]) then s[i] else '?'
  {
    var a := AsciiReplace(s);
    forall i | 0 <= i < |s| ensures CleanText(s)[i] == if IsPrintable(s[i]) then s[i] else '?' {
      if IsPrintable(s[i]) {
        assert IsAscii(s[i]) && a[i] == s[i];
      } else if IsAscii(s[i]) {
        assert a[i] == s[i];
      } else {
        assert a[i] == '?';
      }
    }
  }

  /** A string is left unchanged exactly when it is all printable ASCII. */
  lemma CleanTextFixed(s: string)
    ensures CleanText(s) == s <==> forall i | 0 <= i < |s| :: IsPrintable(s[i])
  {
    CleanTextChars(s);
    if forall i | 0 <= i < |s| :: IsPrintable(s[i]) {
      assert CleanText(s) == s;
    } else {
      var i :| 0 <= i < |s| && !IsPrintable(s[i]);
      assert IsPrintable('?');
      assert CleanText(s)[i] != s[i];
    }
  }

  /** Cleaning twice is cleaning once. */
  lemma CleanStringIdempotent<V>(cell: Cell<V>)
    ensures CleanString(CleanString(cell)) == CleanString(cell)
  {
    if cell.Text? {
      CleanTextFixed(CleanText(cell.s));
    }
  }
}
