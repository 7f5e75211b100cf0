/**
  One line of an environment file: what the reader takes from it, under which key the writer
  looks it up, and what a written line reads back as
  (scripts/configure_polymarket_final_architecture.py).
 */
module EnvLine {
  import opened Wrappers
  import opened Stripping

  // ---------- characters ----------

  predicate IsSpace(c: char) {
    var n := c as int;
    9 <= n <= 13 || 28 <= n <= 32 || n == 0x85 || n == 0xA0 || n == 0x1680 || 0x2000 <= n <= 0x200A
    || n == 0x2028 || n == 0x2029 || n == 0x202F || n == 0x205F || n == 0x3000
  }

  predicate IsDouble(c: char) { c == '"' }

  predicate IsSingle(c: char) { c == '\'' }

  /** Where a decoded text is split into lines; carriage returns only occur as the end of a line. */
  predicate IsBreak(c: char) {
    var n := c as int;
    10 <= n <= 13 || 28 <= n <= 30 || n == 0x85 || n == 0x2028 || n == 0x2029
  }

  function Strip(s: string): string { StripBy(s, IsSpace) }

  function Unquote(s: string): string {
    StripBy(StripBy(Strip(s), IsDouble), IsSingle)
  }

  // ---------- one line ----------

  function EqualsFrom(s: string, i: nat): (k: nat)
    requires i <= |s|
    ensures i <= k <= |s| && (k < |s| ==> s[k] == '=') && forall j :: i <= j < k ==> s[j] != '='
    decreases |s| - i
  {
    if i == |s| || s[i] == '=' then i else EqualsFrom(s, i + 1)
  }

  predicate Comment(stripped: string) { stripped != "" && stripped[0] == '#' }

  function ParseStripped(stripped: string): Option<(string, string)> {
    var i := EqualsFrom(stripped, 0);
    if stripped == "" || Comment(stripped) || i == |stripped| then None
    else Some((Strip(stripped[..i]), Unquote(stripped[i + 1..])))
  }

  /** What the reader makes of a line: nothing, or a key and a value. */
  function Setting(line: string): Option<(string, string)> {
    ParseStripped(Strip(line))
  }

  function KeyOfStripped(stripped: string): string {
    var i := EqualsFrom(stripped, 0);
    if i < |stripped| then Strip(stripped[..i]) else ""
  }

  /** The key under which the writer looks a line up; comments are never looked up. */
  function WriterKey(line: string): Option<string> {
    if Comment(Strip(line)) then None else Some(KeyOfStripped(Strip(line)))
  }

  function Written(key: string, value: string): string {
    key + "=" + value
  }

  predicate NoBreaks(s: string) {
    forall i :: 0 <= i < |s| ==> !IsBreak(s[i])
  }

  predicate CleanKey(key: string) {
    key != "" && Trimmed(key, IsSpace) && '=' !in key && key[0] != '#' && NoBreaks(key)
  }

  predicate CleanValue(value: string) {
    && Trimmed(value, IsSpace) && Trimmed(value, IsDouble) && Trimmed(value, IsSingle) && NoBreaks(value)
  }

  predicate Clean(updates: map<string, string>) {
    forall k :: k in updates ==> CleanKey(k) && CleanValue(updates[k])
  }

  lemma CleanUnquotes(value: string)
    requires CleanValue(value)
    ensures Unquote(value) == value
  {
    StripTrimmed(value, IsSpace);
    StripTrimmed(value, IsDouble);
    StripTrimmed(value, IsSingle);
  }

  lemma WrittenSplits(key: string, value: string)
    requires CleanKey(key)
    ensures var s := Written(key, value);
            s != "" && !Comment(s) && EqualsFrom(s, 0) == |key| < |s| && s[..|key|] == key && s[|key| + 1..] == value
  {
    var s := Written(key, value);
    assert forall j :: 0 <= j < |key| ==> s[j] == key[j] && key[j] in key;
    assert s[|key|] == '=';
  }

  /** A line made of a clean key and any value that has no outer blanks: the reader unquotes the value. */
  lemma LineReads(key: string, value: string)
    requires CleanKey(key) && Trimmed(value, IsSpace)
    ensures Setting(Written(key, value)) == Some((key, Unquote(value)))
    ensures WriterKey(Written(key, value)) == Some(key)
  {
    var s := Written(key, value);
    assert s[0] == key[0];
    assert s[|s| - 1] == if value == "" then '=' else value[|value| - 1];
    StripTrimmed(s, IsSpace);
    WrittenSplits(key, value);
    StripTrimmed(key, IsSpace);
  }

  /** A written line reads back as what was written. */
  lemma WrittenReadsBack(key: string, value: string)
    requires CleanKey(key) && CleanValue(value)
    ensures Setting(Written(key, value)) == Some((key, value))
    ensures WriterKey(Written(key, value)) == Some(key)
  {
    LineReads(key, value);
    CleanUnquotes(value);
  }

  /** For a nonempty key, the writer and the reader recognise the same lines. */
  lemma SameLines(line: string, key: string)
    requires key != ""
    ensures WriterKey(line) == Some(key) <==> Setting(line).Some? && Setting(line).value.0 == key
  {
  }

  // ---------- blanks and quotes ----------

  lemma StripsApart(v: string)
    ensures StripBy(StripBy(v, IsDouble), IsSingle) == v <==> Trimmed(v, IsDouble) && Trimmed(v, IsSingle)
  {
    StripChanges(v, IsDouble);
    StripChanges(v, IsSingle);
    StripChanges(StripBy(v, IsDouble), IsSingle);
  }

  /** Within a pair of quotes of this kind. */
  function Quoted(q: char, v: string): string { [q] + v + [q] }

  lemma QuotedIsTrimmed(q: char, v: string, drop: char -> bool)
    requires !drop(q)
    ensures StripBy(Quoted(q, v), drop) == Quoted(q, v)
  {
    StripTrimmed(Quoted(q, v), drop);
  }

  lemma UnquoteDouble(v: string)
    ensures Unquote(Quoted('"', v)) == v <==> Trimmed(v, IsDouble) && Trimmed(v, IsSingle)
  {
    QuotedIsTrimmed('"', v, IsSpace);
    StripPadded("\"", v, "\"", IsDouble);
    assert Quoted('"', v) == "\"" + v + "\"";
    StripsApart(v);
  }

  lemma UnquoteSingle(v: string)
    ensures Unquote(Quoted('\'', v)) == v <==> Trimmed(v, IsSingle)
  {
    QuotedIsTrimmed('\'', v, IsSpace);
    QuotedIsTrimmed('\'', v, IsDouble);
    StripPadded("'", v, "'", IsSingle);
    StripChanges(v, IsSingle);
    assert Quoted('\'', v) == "'" + v + "'";
  }

  /** Neither at the beginning nor at the end is this character. */
  predicate Bare(v: string, q: char) {
    v == "" || (v[0] != q && v[|v| - 1] != q)
  }

  lemma LineReadsIff(key: string, value: string, v: string)
    requires CleanKey(key) && Trimmed(value, IsSpace)
    ensures Setting(Written(key, value)) == Some((key, v)) <==> Unquote(value) == v
  {
    LineReads(key, value);
  }

  /** A value in double quotes reads as what is inside, exactly if that has no outer quote of either kind. */
  lemma DoubleQuotedReadsInside(key: string, v: string)
    requires CleanKey(key)
    ensures Setting(Written(key, Quoted('"', v))) == Some((key, v)) <==> Bare(v, '"') && Bare(v, '\'')
  {
    LineReadsIff(key, Quoted('"', v), v);
    UnquoteDouble(v);
  }

  /** A value in single quotes reads as what is inside, exactly if that has no outer single quote. */
  lemma SingleQuotedReadsInside(key: string, v: string)
    requires CleanKey(key)
    ensures Setting(Written(key, Quoted('\'', v))) == Some((key, v)) <==> Bare(v, '\'')
  {
    LineReadsIff(key, Quoted('\'', v), v);
    UnquoteSingle(v);
  }

  lemma BlanksHaveNoEquals(b: string)
    requires All(b, IsSpace)
    ensures '=' !in b
  {
  }

  lemma EqualsAfter(head: string, tail: string)
    requires '=' !in head
    ensures EqualsFrom(head + "=" + tail, 0) == |head|
  {
    var s := head + "=" + tail;
    assert s[|head|] == '=';
    assert forall j :: 0 <= j < |head| ==> s[j] == head[j] && head[j] in head;
  }

  lemma CoreSplits(head: string, tail: string, core: string)
    requires head != "" && '=' !in head && core == head + "=" + tail
    ensures var i := EqualsFrom(core, 0); i == |head| < |core| && core[..i] == head && core[i + 1..] == tail
    ensures core[0] == head[0] && core[|core| - 1] == if tail == "" then '=' else tail[|tail| - 1]
  {
    EqualsAfter(head, tail);
  }

  lemma PaddedKey(key: string, b: string)
    requires CleanKey(key) && All(b, IsSpace)
    ensures Strip(key + b) == key && '=' !in key + b && (key + b)[0] == key[0]
  {
    BlanksHaveNoEquals(b);
    StripPadded("", key, b, IsSpace);
    assert "" + key + b == key + b;
  }

  /** A line with a blank-padded key, whose end is not blank. */
  lemma CoreReads(key: string, head: string, tail: string, value: string, core: string)
    requires CleanKey(key) && head != "" && Strip(head) == key && '=' !in head && head[0] == key[0]
    requires Unquote(tail) == value && (tail != "" ==> !IsSpace(tail[|tail| - 1]))
    requires core == head + "=" + tail
    ensures ParseStripped(core) == Some((key, value))
    ensures KeyOfStripped(core) == key && !Comment(core)
    ensures Trimmed(core, IsSpace)
  {
    CoreSplits(head, tail, core);
  }

  lemma PaddedUnquotes(c: string, value: string)
    requires All(c, IsSpace) && CleanValue(value)
    ensures Unquote(c + value) == value
  {
    StripPadded(c, value, "", IsSpace);
    assert c + value == c + value + "";
    CleanUnquotes(value);
  }

  /** Blanks around a line, its key and its value do not change what is read, nor under which key it is found. */
  lemma PaddedReads(a: string, key: string, b: string, c: string, value: string, d: string)
    requires All(a, IsSpace) && All(b, IsSpace) && All(c, IsSpace) && All(d, IsSpace)
    requires CleanKey(key) && CleanValue(value)
    ensures Setting(a + (key + b + "=" + c + value) + d) == Some((key, value))
    ensures WriterKey(a + (key + b + "=" + c + value) + d) == Some(key)
  {
    var tail, pad := if value == "" then "" else c + value, if value == "" then c + d else d;
    PaddedUnquotes(if value == "" then "" else c, value);
    PaddedKey(key, b);
    CoreReads(key, key + b, tail, value, key + b + "=" + tail);
    PaddedStrips(a, key + b + "=", c, value, d);
  }

  lemma PaddedStrips(a: string, head: string, c: string, value: string, d: string)
    requires All(a, IsSpace) && All(c, IsSpace) && All(d, IsSpace)
    requires Trimmed(head + (if value == "" then "" else c + value), IsSpace)
    ensures Strip(a + (head + c + value) + d) == head + (if value == "" then "" else c + value)
  {
    var core, pad := head + (if value == "" then "" else c + value), if value == "" then c + d else d;
    assert a + (head + c + value) + d == a + core + pad;
    StripPadded(a, core, pad, IsSpace);
  }
}
