/** Verilog identifier escaping used by the readers and writers. */
module Reader {

  /** isalpha in the C locale. */
  predicate IsAlpha(c: char) {
    ('a' <= c <= 'z') || ('A' <= c <= 'Z')
  }

  /** Letters, '_' and '$' are simple; digits are not. */
  predicate IsSimpleChar(c: char) {
    IsAlpha(c) || c == '_' || c == '$'
  }

  /** A simple identifier starts with a letter or '_' and has only simple characters. */
  predicate IsSimpleIdentifier(name: string)
    requires |name| > 0
  {
    (IsAlpha(name[0]) || name[0] == '_') && forall i :: 0 <= i < |name| ==> IsSimpleChar(name[i])
  }

  /** A Verilog escaped identifier: a backslash, the name and a terminating blank. */
  function ToEscapedIdentifier(name: string): (r: string)
    requires |name| > 0
    ensures IsSimpleIdentifier(name) ==> r == name
    ensures !IsSimpleIdentifier(name) ==> |r| == |name| + 2 && r[0] == '\\' && r[|r| - 1] == ' ' && r[1..|r| - 1] == name
  {
    if IsSimpleIdentifier(name) then name else "\\" + name + " "
  }

  /** Inverse of the escaping: strips a leading backslash and the trailing blank. */
  function Unescape(s: string): string {
    if |s| >= 2 && s[0] == '\\' && s[|s| - 1] == ' ' then s[1..|s| - 1] else s
  }

  /** Escaping never loses the name. */
  lemma UnescapeEscape(name: string)
    requires |name| > 0
    ensures Unescape(ToEscapedIdentifier(name)) == name
  {
    if IsSimpleIdentifier(name) {
      assert !IsSimpleChar('\\') && !IsSimpleChar(' ');
      assert name[0] != '\\';
    }
  }

  /** The output of escaping is always simple or starts with a backslash. */
  lemma EscapedIsWellFormed(name: string)
    requires |name| > 0
    ensures var r := ToEscapedIdentifier(name); IsSimpleIdentifier(r) || r[0] == '\\'
  {
  }

  /** A name with a digit, such as "x0", is escaped. */
  lemma DigitNamesAreEscaped()
    ensures ToEscapedIdentifier("x0") == "\\x0 "
  {
    assert !IsSimpleChar("x0"[1]);
  }

  /** Escaping is not idempotent: an escaped name is escaped again. */
  lemma EscapeNotIdempotent(name: string)
    requires |name| > 0 && !IsSimpleIdentifier(name)
    ensures ToEscapedIdentifier(ToEscapedIdentifier(name)) != ToEscapedIdentifier(name)
  {
    var e := ToEscapedIdentifier(name);
    assert !IsSimpleChar(e[0]);
    assert |ToEscapedIdentifier(e)| == |e| + 2;
  }
}
