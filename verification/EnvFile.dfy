/**
  Reading and updating an environment file
  (scripts/configure_polymarket_final_architecture.py). The reader and the writer each look at
  a line through a function of their own; what they need to have in common is `Agreement`.
 */
module EnvFile {
  import opened Wrappers
  import opened Stripping
  import opened EnvLine

  type Reader = string -> Option<(string, string)>
  type Writer = string -> Option<string>

  const HEADER := "# Unified Polymarket" + " final architecture" + " (managed locally)"

  predicate Sets(read: Reader, line: string, key: string) {
    read(line).Some? && read(line).value.0 == key
  }

  /**
    Reader and writer recognise the same lines, written lines read back, and what is added around them sets nothing.
   */
  ghost predicate Agreement(read: Reader, write: Writer, updates: map<string, string>) {
    && "" !in updates
    && (forall line, key :: key != "" ==> (write(line) == Some(key) <==> Sets(read, line, key)))
    && (forall k :: k in updates ==> read(Written(k, updates[k])) == Some((k, updates[k])))
    && read("").None? && read(HEADER).None?
  }

  lemma AgreementNarrows(read: Reader, write: Writer, updates: map<string, string>, key: string)
    requires Agreement(read, write, updates)
    ensures Agreement(read, write, updates - {key})
  {
  }

  // ---------- reading ----------

  /** The value of the last line that sets the key. */
  function Lookup(lines: seq<string>, key: string, read: Reader): Option<string> {
    if lines == [] then None
    else
      var later := Lookup(lines[1..], key, read);
      if later.Some? then later
      else if Sets(read, lines[0], key) then Some(read(lines[0]).value.1) else None
  }

  lemma {:induction false} LookupConcat(xs: seq<string>, ys: seq<string>, key: string, read: Reader)
    ensures Lookup(xs + ys, key, read) ==
            if Lookup(ys, key, read).Some? then Lookup(ys, key, read) else Lookup(xs, key, read)
  {
    if xs == [] {
      assert xs + ys == ys;
    } else {
      LookupConcat(xs[1..], ys, key, read);
      assert (xs + ys)[1..] == xs[1..] + ys;
    }
  }

  lemma LookupOne(line: string, key: string, read: Reader)
    ensures Lookup([line], key, read) == if Sets(read, line, key) then Some(read(line).value.1) else None
  {
    assert [line][1..] == [];
  }

  ghost predicate IsReading(values: map<string, string>, lines: seq<string>, read: Reader) {
    && (forall key :: key in values <==> Lookup(lines, key, read).Some?)
    && (forall key :: key in values ==> Lookup(lines, key, read) == Some(values[key]))
  }

  lemma ReadsOneMore(values: map<string, string>, lines: seq<string>, line: string, read: Reader)
    requires IsReading(values, lines, read)
    ensures IsReading(if read(line).Some? then values[read(line).value.0 := read(line).value.1] else values,
                      lines + [line], read)
  {
    forall key
      ensures Lookup(lines + [line], key, read) ==
              if Sets(read, line, key) then Some(read(line).value.1) else Lookup(lines, key, read)
    {
      LookupConcat(lines, [line], key, read);
      LookupOne(line, key, read);
    }
  }

  /** The dictionary holds, for each key, the value of the last line that sets it. */
  method ReadEnv(lines: seq<string>, read: Reader) returns (values: map<string, string>)
    ensures IsReading(values, lines, read)
  {
    values := map[];
    var i := 0;
    while i < |lines|
      invariant 0 <= i <= |lines| && IsReading(values, lines[..i], read)
    {
      ReadsOneMore(values, lines[..i], lines[i], read);
      assert lines[..i + 1] == lines[..i] + [lines[i]];
      var setting := read(lines[i]);
      if setting.Some? {
        values := values[setting.value.0 := setting.value.1];
      }
      i := i + 1;
    }
    assert lines[..i] == lines;
  }

  // ---------- updating ----------

  /** Rewrites the first line of each key that is still to be written. */
  function Rewrite(lines: seq<string>, remaining: map<string, string>, write: Writer)
    : (seq<string>, map<string, string>)
  {
    if lines == [] then ([], remaining)
    else
      var key := write(lines[0]);
      if key.Some? && key.value in remaining then
        var (rest, left) := Rewrite(lines[1..], remaining - {key.value}, write);
        ([Written(key.value, remaining[key.value])] + rest, left)
      else
        var (rest, left) := Rewrite(lines[1..], remaining, write);
        ([lines[0]] + rest, left)
  }

  function Settings(order: seq<string>, values: map<string, string>): (lines: seq<string>)
    requires forall k :: k in order ==> k in values
    ensures |lines| == |order| && forall i :: 0 <= i < |lines| ==> lines[i] == Written(order[i], values[order[i]])
  {
    seq(|order|, i requires 0 <= i < |order| => Written(order[i], values[order[i]]))
  }

  /** What is added at the end for the keys that no line had. */
  function Appendix(output: seq<string>, order: seq<string>, left: map<string, string>): seq<string>
    requires forall k :: k in order ==> k in left
  {
    if left == map[] then []
    else (if output != [] && output[|output| - 1] != "" then [""] else []) + [HEADER] + Settings(order, left)
  }

  /** The keys of a dictionary, each once. */
  ghost predicate Lists(order: seq<string>, values: map<string, string>) {
    && (forall k :: k in order <==> k in values)
    && (forall i, j :: 0 <= i < j < |order| ==> order[i] != order[j])
  }

  function Updated(lines: seq<string>, updates: map<string, string>, order: seq<string>, write: Writer): seq<string>
    requires forall k :: k in order ==> k in Rewrite(lines, updates, write).1
  {
    var (output, left) := Rewrite(lines, updates, write);
    output + Appendix(output, order, left)
  }

  /** How many lines set the key. */
  function Occurrences(lines: seq<string>, key: string, read: Reader): nat {
    if lines == [] then 0 else (if Sets(read, lines[0], key) then 1 else 0) + Occurrences(lines[1..], key, read)
  }

  lemma {:induction false} LookupIffOccurs(lines: seq<string>, key: string, read: Reader)
    ensures Lookup(lines, key, read).Some? <==> Occurrences(lines, key, read) > 0
  {
    if lines != [] { LookupIffOccurs(lines[1..], key, read); }
  }

  /** The rewritten lines: a key set once reads as its update, a key set more often still reads as its last old line. */
  lemma {:induction false} RewriteReads(lines: seq<string>, remaining: map<string, string>, key: string, read: Reader,
                                        write: Writer)
    requires Agreement(read, write, remaining)
    ensures var (output, left) := Rewrite(lines, remaining, write);
            && Lookup(output, key, read) ==
                 (if key in remaining && Occurrences(lines, key, read) == 1 then Some(remaining[key])
                     else Lookup(lines, key, read))
            && (key in left <==> key in remaining && Occurrences(lines, key, read) == 0)
            && (key in left ==> left[key] == remaining[key])
  {
    if lines != [] {
      var head := write(lines[0]);
      assert key != "" ==> (head == Some(key) <==> Sets(read, lines[0], key));
      LookupIffOccurs(lines[1..], key, read);
      if head.Some? && head.value in remaining {
        var k := head.value;
        assert Sets(read, lines[0], k);
        AgreementNarrows(read, write, remaining, k);
        var (rest, left) := Rewrite(lines[1..], remaining - {k}, write);
        RewriteReads(lines[1..], remaining - {k}, key, read, write);
        LookupHead(Written(k, remaining[k]), rest, key, read);
      } else {
        var (rest, left) := Rewrite(lines[1..], remaining, write);
        RewriteReads(lines[1..], remaining, key, read, write);
        LookupHead(lines[0], rest, key, read);
      }
    }
  }

  lemma LookupHead(line: string, rest: seq<string>, key: string, read: Reader)
    ensures Lookup([line] + rest, key, read) ==
            if Lookup(rest, key, read).Some? then Lookup(rest, key, read)
            else if Sets(read, line, key) then Some(read(line).value.1) else None
  {
    assert ([line] + rest)[1..] == rest;
  }

  lemma {:induction false} SettingsRead(order: seq<string>, values: map<string, string>, key: string, read: Reader)
    requires forall k :: k in order ==> k in values && read(Written(k, values[k])) == Some((k, values[k]))
    ensures Lookup(Settings(order, values), key, read) == if key in order then Some(values[key]) else None
  {
    if order != [] {
      var k := order[0];
      SettingsRead(order[1..], values, key, read);
      assert Settings(order, values) == [Written(k, values[k])] + Settings(order[1..], values);
      LookupHead(Written(k, values[k]), Settings(order[1..], values), key, read);
    }
  }

  lemma AppendixShape(output: seq<string>, order: seq<string>, left: map<string, string>)
    requires left != map[] && forall k :: k in order ==> k in left
    ensures var headed := [HEADER] + Settings(order, left);
            Appendix(output, order, left) == headed || Appendix(output, order, left) == [""] + headed
  {
    var settings := Settings(order, left);
    assert [] + [HEADER] + settings == [HEADER] + settings;
    assert [""] + [HEADER] + settings == [""] + ([HEADER] + settings);
  }

  lemma AppendixReads(output: seq<string>, order: seq<string>, left: map<string, string>, key: string, read: Reader,
                      write: Writer)
    requires Agreement(read, write, left) && Lists(order, left)
    ensures Lookup(Appendix(output, order, left), key, read) == if key in left then Some(left[key]) else None
  {
    if left != map[] {
      SettingsRead(order, left, key, read);
      LookupHead(HEADER, Settings(order, left), key, read);
      LookupHead("", [HEADER] + Settings(order, left), key, read);
      AppendixShape(output, order, left);
    }
  }

  lemma LeftoversAgree(lines: seq<string>, updates: map<string, string>, read: Reader, write: Writer)
    requires Agreement(read, write, updates)
    ensures Agreement(read, write, Rewrite(lines, updates, write).1)
  {
    var left := Rewrite(lines, updates, write).1;
    forall k ensures k in left ==> k in updates && left[k] == updates[k] {
      RewriteReads(lines, updates, k, read, write);
    }
  }

  /**
    Reading after an update: every updated key that at most one line set reads as its new
    value; every other key, and every key that several lines set, reads as before.
   */
  lemma UpdateReads(lines: seq<string>, updates: map<string, string>, order: seq<string>, key: string, read: Reader,
                    write: Writer)
    requires Agreement(read, write, updates) && Lists(order, Rewrite(lines, updates, write).1)
    ensures Lookup(Updated(lines, updates, order, write), key, read) ==
            if key in updates && Occurrences(lines, key, read) <= 1 then Some(updates[key])
                else Lookup(lines, key, read)
  {
    var (output, left) := Rewrite(lines, updates, write);
    RewriteReads(lines, updates, key, read, write);
    LeftoversAgree(lines, updates, read, write);
    AppendixReads(output, order, left, key, read, write);
    LookupConcat(output, Appendix(output, order, left), key, read);
    LookupIffOccurs(lines, key, read);
  }

  // ---------- updating twice ----------

  lemma RewriteSkips(line: string, rest: seq<string>, remaining: map<string, string>, write: Writer)
    requires write(line).Some? ==> write(line).value !in remaining
    ensures Rewrite([line] + rest, remaining, write) ==
        ([line] + Rewrite(rest, remaining, write).0, Rewrite(rest, remaining, write).1)
  {
    assert ([line] + rest)[1..] == rest;
  }

  lemma RewriteReplaces(line: string, rest: seq<string>, remaining: map<string, string>, key: string, write: Writer)
    requires write(line) == Some(key) && key in remaining
    ensures Rewrite([line] + rest, remaining, write) ==
            ([Written(key, remaining[key])] + Rewrite(rest, remaining - {key}, write).0,
             Rewrite(rest, remaining - {key}, write).1)
  {
    assert ([line] + rest)[1..] == rest;
  }

  /** Lines that a rewrite for exactly these keys would leave as they are. */
  ghost predicate Stable(lines: seq<string>, remaining: map<string, string>, write: Writer) {
    Rewrite(lines, remaining, write) == (lines, map[])
  }

  lemma WritesBack(read: Reader, write: Writer, updates: map<string, string>, key: string)
    requires Agreement(read, write, updates) && key in updates
    ensures write(Written(key, updates[key])) == Some(key)
  {
    assert Sets(read, Written(key, updates[key]), key);
  }

  lemma ListsTail(order: seq<string>, left: map<string, string>)
    requires Lists(order, left) && order != []
    ensures Lists(order[1..], left - {order[0]})
  {
    var k, rest := order[0], order[1..];
    forall i | 0 <= i < |rest| ensures rest[i] == order[i + 1] && rest[i] != k {}
    forall x ensures x in rest <==> x in left - {k} {
      if x in left && x != k {
        var i :| 0 <= i < |order| && order[i] == x;
        assert rest[i - 1] == x;
      }
    }
  }

  lemma SettingsTail(order: seq<string>, left: map<string, string>)
    requires order != [] && (forall k :: k in order ==> k in left) && order[0] !in order[1..]
    ensures Settings(order, left) == [Written(order[0], left[order[0]])] + Settings(order[1..], left - {order[0]})
  {
  }

  lemma {:induction false} SettingsStable(order: seq<string>, left: map<string, string>, read: Reader, write: Writer)
    requires Agreement(read, write, left) && Lists(order, left)
    ensures Stable(Settings(order, left), left, write)
  {
    if order == [] {
      assert left == map[];
    } else {
      var k := order[0];
      ListsTail(order, left);
      SettingsTail(order, left);
      AgreementNarrows(read, write, left, k);
      SettingsStable(order[1..], left - {k}, read, write);
      WritesBack(read, write, left, k);
      RewriteReplaces(Written(k, left[k]), Settings(order[1..], left - {k}), left, k, write);
    }
  }

  lemma SkippedStaysStable(line: string, rest: seq<string>, left: map<string, string>, read: Reader, write: Writer)
    requires Agreement(read, write, left) && read(line).None? && Stable(rest, left, write)
    ensures Stable([line] + rest, left, write)
  {
    InertIsSkipped(line, left, read, write);
    RewriteSkips(line, rest, left, write);
  }

  lemma AppendixStable(output: seq<string>, order: seq<string>, left: map<string, string>, read: Reader, write: Writer)
    requires Agreement(read, write, left) && Lists(order, left)
    ensures Stable(Appendix(output, order, left), left, write)
  {
    if left == map[] {
      NothingToWrite([], write);
    } else {
      SettingsStable(order, left, read, write);
      SkippedStaysStable(HEADER, Settings(order, left), left, read, write);
      SkippedStaysStable("", [HEADER] + Settings(order, left), left, read, write);
      AppendixShape(output, order, left);
    }
  }

  lemma InertIsSkipped(line: string, left: map<string, string>, read: Reader, write: Writer)
    requires Agreement(read, write, left) && read(line).None?
    ensures write(line).Some? ==> write(line).value !in left
  {
    forall key | key in left ensures write(line) != Some(key) {
      assert key != "" && !Sets(read, line, key);
    }
  }

  lemma {:induction false} RewriteAgain(lines: seq<string>, remaining: map<string, string>, tail: seq<string>,
                                        read: Reader, write: Writer)
    requires Agreement(read, write, remaining)
    requires Stable(tail, Rewrite(lines, remaining, write).1, write)
    ensures Stable(Rewrite(lines, remaining, write).0 + tail, remaining, write)
  {
    var (output, left) := Rewrite(lines, remaining, write);
    if lines == [] {
      assert output + tail == tail;
    } else {
      var head := write(lines[0]);
      if head.Some? && head.value in remaining {
        var k := head.value;
        AgreementNarrows(read, write, remaining, k);
        RewriteAgain(lines[1..], remaining - {k}, tail, read, write);
        var rest := Rewrite(lines[1..], remaining - {k}, write).0 + tail;
        assert output + tail == [Written(k, remaining[k])] + rest;
        WritesBack(read, write, remaining, k);
        RewriteReplaces(Written(k, remaining[k]), rest, remaining, k, write);
      } else {
        RewriteAgain(lines[1..], remaining, tail, read, write);
        var rest := Rewrite(lines[1..], remaining, write).0 + tail;
        assert output + tail == [lines[0]] + rest;
        RewriteSkips(lines[0], rest, remaining, write);
      }
    }
  }

  /** A second update with the same values changes no line and adds none. */
  lemma UpdateTwice(lines: seq<string>, updates: map<string, string>, order: seq<string>, read: Reader, write: Writer)
    requires Agreement(read, write, updates) && Lists(order, Rewrite(lines, updates, write).1)
    ensures Rewrite(Updated(lines, updates, order, write), updates, write) ==
        (Updated(lines, updates, order, write), map[])
  {
    var (output, left) := Rewrite(lines, updates, write);
    LeftoversAgree(lines, updates, read, write);
    AppendixStable(output, order, left, read, write);
    RewriteAgain(lines, updates, Appendix(output, order, left), read, write);
  }

  // ---------- sorted keys ----------

  /** Code point order on strings. */
  predicate Before(a: string, b: string) {
    a == "" || (b != "" && (a[0] < b[0] || (a[0] == b[0] && Before(a[1..], b[1..]))))
  }

  lemma {:induction false} BeforeIsTotal(a: string, b: string)
    ensures Before(a, b) || Before(b, a)
  {
    if a != "" && b != "" && a[0] == b[0] { BeforeIsTotal(a[1..], b[1..]); }
  }

  lemma {:induction false} BeforeIsTransitive(a: string, b: string, c: string)
    requires Before(a, b) && Before(b, c)
    ensures Before(a, c)
  {
    if a != "" && a[0] == b[0] && b[0] == c[0] { BeforeIsTransitive(a[1..], b[1..], c[1..]); }
  }

  ghost predicate Sorted(order: seq<string>) {
    forall i, j :: 0 <= i < j < |order| ==> Before(order[i], order[j])
  }

  method InsertKey(order: seq<string>, key: string) returns (r: seq<string>)
    requires Sorted(order) && key !in order
    ensures Sorted(r) && forall k :: k in r <==> k in order || k == key
    ensures (forall i, j :: 0 <= i < j < |order| ==> order[i] != order[j]) ==>
              forall i, j :: 0 <= i < j < |r| ==> r[i] != r[j]
  {
    var i := 0;
    while i < |order| && Before(order[i], key)
      invariant 0 <= i <= |order|
      invariant forall j :: 0 <= j < i ==> Before(order[j], key)
    {
      i := i + 1;
    }
    forall j | i <= j < |order| ensures Before(key, order[j]) {
      BeforeIsTotal(order[i], key);
      if i < j { BeforeIsTransitive(key, order[i], order[j]); }
    }
    r := order[..i] + [key] + order[i..];
  }

  method SortKeys(values: map<string, string>) returns (order: seq<string>)
    ensures Lists(order, values) && Sorted(order)
  {
    order := [];
    var rest := values;
    while rest.Keys != {}
      invariant rest.Keys <= values.Keys && Sorted(order)
      invariant forall k :: k in order <==> k in values && k !in rest
      invariant forall i, j :: 0 <= i < j < |order| ==> order[i] != order[j]
      decreases rest.Keys
    {
      var k :| k in rest.Keys;
      rest := rest - {k};
      order := InsertKey(order, k);
    }
  }

  // ---------- the writer ----------

  /** The first i lines have been written; rewriting the others for the remaining keys completes the output. */
  ghost predicate Wrote(lines: seq<string>, updates: map<string, string>, write: Writer, i: nat, output: seq<string>,
                        remaining: map<string, string>) {
    && i <= |lines|
    && Rewrite(lines, updates, write).0 == output + Rewrite(lines[i..], remaining, write).0
    && Rewrite(lines, updates, write).1 == Rewrite(lines[i..], remaining, write).1
  }

  lemma WroteNothing(lines: seq<string>, updates: map<string, string>, write: Writer)
    ensures Wrote(lines, updates, write, 0, [], updates)
  {
    assert lines[0..] == lines && [] + Rewrite(lines, updates, write).0 == Rewrite(lines, updates, write).0;
  }

  lemma WroteAll(lines: seq<string>, updates: map<string, string>, write: Writer, output: seq<string>,
                 remaining: map<string, string>)
    requires Wrote(lines, updates, write, |lines|, output, remaining)
    ensures (output, remaining) == Rewrite(lines, updates, write)
  {
    assert lines[|lines|..] == [] && output + [] == output;
  }

  lemma WroteOneMore(lines: seq<string>, updates: map<string, string>, write: Writer, i: nat, output: seq<string>,
                     remaining: map<string, string>, line: string, left: map<string, string>)
    requires Wrote(lines, updates, write, i, output, remaining) && i < |lines|
    requires var key := write(lines[i]);
             if key.Some? && key.value in remaining
             then line == Written(key.value, remaining[key.value]) && left == remaining - {key.value}
             else line == lines[i] && left == remaining
    ensures Wrote(lines, updates, write, i + 1, output + [line], left)
  {
    var rest := Rewrite(lines[i + 1..], left, write).0;
    assert lines[i..][1..] == lines[i + 1..];
    assert Rewrite(lines[i..], remaining, write).0 == [line] + rest;
    assert output + ([line] + rest) == (output + [line]) + rest;
  }

  method RewriteLines(lines: seq<string>, updates: map<string, string>, write: Writer)
    returns (output: seq<string>, remaining: map<string, string>)
    ensures (output, remaining) == Rewrite(lines, updates, write)
  {
    remaining := updates;
    output := [];
    var i := 0;
    WroteNothing(lines, updates, write);
    while i < |lines|
      invariant 0 <= i <= |lines| && Wrote(lines, updates, write, i, output, remaining)
    {
      var key := write(lines[i]);
      ghost var done, before := output, remaining;
      if key.Some? && key.value in remaining {
        output := output + [Written(key.value, remaining[key.value])];
        remaining := remaining - {key.value};
      } else {
        output := output + [lines[i]];
      }
      WroteOneMore(lines, updates, write, i, done, before, output[|done|], remaining);
      i := i + 1;
    }
    WroteAll(lines, updates, write, output, remaining);
  }

  method AppendSettings(output: seq<string>, keys: seq<string>, remaining: map<string, string>)
    returns (longer: seq<string>)
    requires forall k :: k in keys ==> k in remaining
    ensures longer == output + Settings(keys, remaining)
  {
    longer := output;
    var k := 0;
    while k < |keys|
      invariant 0 <= k <= |keys| && longer == output + Settings(keys, remaining)[..k]
    {
      longer := longer + [Written(keys[k], remaining[keys[k]])];
      k := k + 1;
    }
    assert Settings(keys, remaining)[..k] == Settings(keys, remaining);
  }

  method AppendKeys(rewritten: seq<string>, keys: seq<string>, remaining: map<string, string>)
    returns (output: seq<string>)
    requires forall k :: k in keys ==> k in remaining
    ensures output == rewritten + Appendix(rewritten, keys, remaining)
  {
    output := rewritten;
    if remaining != map[] {
      if output != [] && output[|output| - 1] != "" {
        output := output + [""];
      }
      output := output + [HEADER];
      output := AppendSettings(output, keys, remaining);
    }
  }

  /** The output, and the sorted order in which the keys without a line were added. */
  method UpdateEnv(lines: seq<string>, updates: map<string, string>, write: Writer)
    returns (output: seq<string>, order: seq<string>)
    ensures Lists(order, Rewrite(lines, updates, write).1) && Sorted(order)
    ensures output == Updated(lines, updates, order, write)
  {
    var rewritten, remaining := RewriteLines(lines, updates, write);
    order := SortKeys(remaining);
    output := AppendKeys(rewritten, order, remaining);
  }

  // ---------- the file ----------

  lemma AddedLinesAreInert()
    ensures Setting("").None? && Setting(HEADER).None?
  {
    assert |HEADER| == 57 && HEADER[0] == '#' && HEADER[56] == ')';
    StripTrimmed(HEADER, IsSpace);
    StripTrimmed("", IsSpace);
  }

  /** The reader and the writer of the script agree on clean updates. */
  lemma ScriptAgrees(updates: map<string, string>)
    requires Clean(updates)
    ensures Agreement(Setting, WriterKey, updates)
  {
    forall line, key | key != "" ensures WriterKey(line) == Some(key) <==> Sets(Setting, line, key) {
      SameLines(line, key);
    }
    forall k | k in updates ensures Setting(Written(k, updates[k])) == Some((k, updates[k])) {
      WrittenReadsBack(k, updates[k]);
    }
    AddedLinesAreInert();
  }

  function SplitLines(text: string): seq<string> {
    if text == "" then []
    else if IsBreak(text[0]) then [""] + SplitLines(text[1..])
    else
      var rest := SplitLines(text[1..]);
      if rest == [] then [[text[0]]] else [[text[0]] + rest[0]] + rest[1..]
  }

  function Unlines(lines: seq<string>): string {
    if lines == [] then "" else lines[0] + "\n" + Unlines(lines[1..])
  }

  /** What is written: the lines joined and ended by newlines, a lone newline for no line at all. */
  function FileText(lines: seq<string>): string {
    if lines == [] then "\n" else Unlines(lines)
  }

  lemma {:induction false} SplitOneLine(line: string, rest: string)
    requires NoBreaks(line)
    ensures SplitLines(line + "\n" + rest) == [line] + SplitLines(rest)
  {
    var text := line + "\n" + rest;
    if line == "" {
      assert text[0] == '\n' && text[1..] == rest;
    } else {
      assert text[0] == line[0] && text[1..] == line[1..] + "\n" + rest;
      SplitOneLine(line[1..], rest);
      assert line == [line[0]] + line[1..];
    }
  }

  lemma {:induction false} SplitInvertsUnlines(lines: seq<string>)
    requires forall l :: l in lines ==> NoBreaks(l)
    ensures SplitLines(Unlines(lines)) == lines
  {
    if lines != [] {
      SplitInvertsUnlines(lines[1..]);
      SplitOneLine(lines[0], Unlines(lines[1..]));
    }
  }

  lemma {:induction false} SplitHasNoBreaks(text: string)
    ensures forall l :: l in SplitLines(text) ==> NoBreaks(l)
  {
    if text != "" {
      SplitHasNoBreaks(text[1..]);
      var rest := SplitLines(text[1..]);
      if !IsBreak(text[0]) && rest != [] {
        assert NoBreaks(rest[0]);
        assert forall l :: l in rest[1..] ==> l in rest;
      }
    }
  }

  lemma {:induction false} RewriteHasNoBreaks(lines: seq<string>, remaining: map<string, string>, write: Writer)
    requires forall l :: l in lines ==> NoBreaks(l)
    requires Clean(remaining)
    ensures forall l :: l in Rewrite(lines, remaining, write).0 ==> NoBreaks(l)
    ensures Clean(Rewrite(lines, remaining, write).1)
  {
    if lines != [] {
      assert lines[0] in lines;
      var key := write(lines[0]);
      var rest := if key.Some? && key.value in remaining then remaining - {key.value} else remaining;
      RewriteHasNoBreaks(lines[1..], rest, write);
    }
  }

  lemma AppendixHasNoBreaks(output: seq<string>, order: seq<string>, left: map<string, string>)
    requires Clean(left) && forall k :: k in order ==> k in left
    ensures forall l :: l in Appendix(output, order, left) ==> NoBreaks(l)
  {
    HeaderHasNoBreaks();
    var settings := Settings(order, left);
    forall l | l in settings ensures NoBreaks(l) {
      var i :| 0 <= i < |settings| && settings[i] == l;
      assert order[i] in order;
    }
  }

  lemma HeaderHasNoBreaks()
    ensures NoBreaks(HEADER)
  {
  }

  /** The file that an update of a file leaves, when the added keys are written in this order. */
  function UpdatedFile(text: string, updates: map<string, string>, order: seq<string>): string
    requires forall k :: k in order ==> k in Rewrite(SplitLines(text), updates, WriterKey).1
  {
    FileText(Updated(SplitLines(text), updates, order, WriterKey))
  }

  lemma UpdatedLinesComeBack(text: string, updates: map<string, string>, order: seq<string>)
    requires Clean(updates) && Lists(order, Rewrite(SplitLines(text), updates, WriterKey).1)
    ensures var out := Updated(SplitLines(text), updates, order, WriterKey);
            SplitLines(UpdatedFile(text, updates, order)) == if out == [] then [""] else out
  {
    var lines := SplitLines(text);
    var out := Updated(lines, updates, order, WriterKey);
    SplitHasNoBreaks(text);
    RewriteHasNoBreaks(lines, updates, WriterKey);
    AppendixHasNoBreaks(Rewrite(lines, updates, WriterKey).0, order, Rewrite(lines, updates, WriterKey).1);
    if out == [] {
      assert "\n"[1..] == "";
    } else {
      SplitInvertsUnlines(out);
    }
  }

  /**
    Reading the updated file: a cleanly updated key that at most one line set has its new
    value; every other key, and every key set on several lines, is as before.
   */
  lemma FileReadsUpdated(text: string, updates: map<string, string>, order: seq<string>, key: string)
    requires Clean(updates) && Lists(order, Rewrite(SplitLines(text), updates, WriterKey).1)
    ensures Lookup(SplitLines(UpdatedFile(text, updates, order)), key, Setting) ==
            if key in updates && Occurrences(SplitLines(text), key, Setting) <= 1 then Some(updates[key])
            else Lookup(SplitLines(text), key, Setting)
  {
    ScriptAgrees(updates);
    UpdatedLinesComeBack(text, updates, order);
    UpdateReads(SplitLines(text), updates, order, key, Setting, WriterKey);
    LookupOne("", key, Setting);
  }

  lemma {:induction false} NothingToWrite(lines: seq<string>, write: Writer)
    ensures Stable(lines, map[], write)
  {
    if lines != [] {
      NothingToWrite(lines[1..], write);
      RewriteSkips(lines[0], lines[1..], map[], write);
      assert lines == [lines[0]] + lines[1..];
    }
  }

  lemma NoLinesNoKeys(lines: seq<string>, updates: map<string, string>, order: seq<string>)
    requires Lists(order, Rewrite(lines, updates, WriterKey).1) && Updated(lines, updates, order, WriterKey) == []
    ensures updates == map[]
  {
  }

  /** Updating the file twice with the same clean values is updating it once. */
  lemma FileUpdateTwice(text: string, updates: map<string, string>, order: seq<string>)
    requires Clean(updates) && Lists(order, Rewrite(SplitLines(text), updates, WriterKey).1)
    ensures var once := UpdatedFile(text, updates, order);
            Rewrite(SplitLines(once), updates, WriterKey).1 == map[] && UpdatedFile(once, updates, []) == once
  {
    var lines, out := SplitLines(text), Updated(SplitLines(text), updates, order, WriterKey);
    UpdatedLinesComeBack(text, updates, order);
    if out == [] {
      NoLinesNoKeys(lines, updates, order);
      NothingToWrite([""], WriterKey);
      assert [""] + [] == [""];
      assert Unlines([""]) == "\n";
    } else {
      ScriptAgrees(updates);
      UpdateTwice(lines, updates, order, Setting, WriterKey);
      assert out + [] == out;
    }
  }

  // ---------- when an update takes effect ----------

  /**
    An updated key reads as its new value exactly if at most one line set it, or its last line had that value
    already.
   */
  lemma UpdateTakesEffectIff(text: string, updates: map<string, string>, order: seq<string>, key: string)
    requires Clean(updates) && Lists(order, Rewrite(SplitLines(text), updates, WriterKey).1) && key in updates
    ensures Lookup(SplitLines(UpdatedFile(text, updates, order)), key, Setting) == Some(updates[key]) <==>
            || Occurrences(SplitLines(text), key, Setting) <= 1
            || Lookup(SplitLines(text), key, Setting) == Some(updates[key])
  {
    FileReadsUpdated(text, updates, order, key);
  }

  lemma TwoLinesRead(a: string, b: string, first: string, second: string, key: string, read: Reader)
    requires read(a) == Some((key, first)) && read(b) == Some((key, second))
    ensures Occurrences([a, b], key, read) == 2 && Lookup([a, b], key, read) == Some(second)
  {
    assert [a, b][1..] == [b] && [b][1..] == [];
    assert Occurrences([b], key, read) == 1 + Occurrences([], key, read);
    LookupOne(b, key, read);
    LookupHead(a, [b], key, read);
    assert [a] + [b] == [a, b];
  }

  lemma TwoSettings(first: string, second: string, key: string)
    requires CleanKey(key) && CleanValue(first) && CleanValue(second)
    ensures var lines := [Written(key, first), Written(key, second)];
            Occurrences(lines, key, Setting) == 2 && Lookup(lines, key, Setting) == Some(second)
  {
    WrittenReadsBack(key, first);
    WrittenReadsBack(key, second);
    TwoLinesRead(Written(key, first), Written(key, second), first, second, key, Setting);
  }

  lemma WrittenHasNoBreaks(key: string, value: string)
    requires CleanKey(key) && CleanValue(value)
    ensures NoBreaks(Written(key, value))
  {
  }

  /** Two lines of one key, updated to a third value: the key still reads as the second line. */
  lemma RepeatedKeyIsNotUpdated(key: string, first: string, second: string, updated: string, order: seq<string>)
    requires CleanKey(key) && CleanValue(first) && CleanValue(second) && CleanValue(updated) && second != updated
    requires var text := Unlines([Written(key, first), Written(key, second)]);
             Lists(order, Rewrite(SplitLines(text), map[key := updated], WriterKey).1)
    ensures var text := Unlines([Written(key, first), Written(key, second)]);
            Lookup(SplitLines(UpdatedFile(text, map[key := updated], order)), key, Setting) == Some(second)
  {
    var lines := [Written(key, first), Written(key, second)];
    WrittenHasNoBreaks(key, first);
    WrittenHasNoBreaks(key, second);
    SplitInvertsUnlines(lines);
    TwoSettings(first, second, key);
    FileReadsUpdated(Unlines(lines), map[key := updated], order, key);
  }
}
