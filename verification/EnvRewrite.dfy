/**
  What an update of an environment file writes, line by line, and which lines of the old file are read
  (scripts/configure_polymarket_final_architecture.py).
 */
module EnvRewrite {
  import opened Wrappers
  import opened Stripping
  import opened EnvLine
  import opened EnvFile

  // ---------- the lines that are not read ----------

  lemma {:induction false} NoEquals(s: string, i: nat)
    requires i <= |s| && '=' !in s
    ensures EqualsFrom(s, i) == |s|
    decreases |s| - i
  {
    if i < |s| {
      assert s[i] in s;
      NoEquals(s, i + 1);
    }
  }

  lemma StripKeepsOut(line: string)
    requires '=' !in line
    ensures '=' !in Strip(line)
  {
  }

  /** A line whose first character after blanks is '#' sets nothing, for the reader and for the writer. */
  lemma CommentIsIgnored(a: string, t: string)
    requires All(a, IsSpace)
    ensures Setting(a + ("#" + t)).None? && WriterKey(a + ("#" + t)).None?
  {
    var s := "#" + t;
    assert !IsSpace(s[0]);
    StripPadded(a, s, "", IsSpace);
    assert a + s + "" == a + s;
    StripKeepsHead(s, IsSpace);
  }

  /** A line without an equals sign sets nothing. */
  lemma LineWithoutEqualsIsIgnored(line: string)
    requires '=' !in line
    ensures Setting(line).None?
  {
    StripKeepsOut(line);
    NoEquals(Strip(line), 0);
  }

  // ---------- the lines that are written ----------

  /** The first line that the writer finds under this key. */
  predicate IsFirstFor(lines: seq<string>, i: nat, key: string, write: Writer) {
    i < |lines| && write(lines[i]) == Some(key) && forall j :: 0 <= j < i ==> write(lines[j]) != Some(key)
  }

  /** What stands in the place of a line: the new setting if it is the first line of an updated key, or the line. */
  ghost predicate Replaced(lines: seq<string>, updates: map<string, string>, i: nat, line: string, write: Writer)
    requires i < |lines|
  {
    line == if write(lines[i]).Some? && write(lines[i]).value in updates
        && IsFirstFor(lines, i, write(lines[i]).value, write)
            then write(lines[i]).value + "=" + updates[write(lines[i]).value] else lines[i]
  }

  lemma FirstForTail(lines: seq<string>, i: nat, key: string, write: Writer)
    requires lines != []
    ensures IsFirstFor(lines, i + 1, key, write) <==>
            IsFirstFor(lines[1..], i, key, write) && write(lines[0]) != Some(key)
  {
    assert forall j :: 0 <= j < |lines[1..]| ==> lines[1..][j] == lines[j + 1];
    if IsFirstFor(lines, i + 1, key, write) {
      forall j | 0 <= j < i ensures write(lines[1..][j]) != Some(key) { assert write(lines[j + 1]) != Some(key); }
    }
    if IsFirstFor(lines[1..], i, key, write) && write(lines[0]) != Some(key) {
      forall j | 0 <= j < i + 1 ensures write(lines[j]) != Some(key) {
        if j > 0 { assert write(lines[1..][j - 1]) != Some(key); }
      }
    }
  }

  lemma FirstForHead(lines: seq<string>, write: Writer)
    requires lines != [] && write(lines[0]).Some?
    ensures IsFirstFor(lines, 0, write(lines[0]).value, write)
  {
  }

  ghost predicate HasLine(lines: seq<string>, key: string, write: Writer) {
    exists i :: 0 <= i < |lines| && write(lines[i]) == Some(key)
  }

  lemma HasLineCons(lines: seq<string>, key: string, write: Writer)
    requires lines != []
    ensures HasLine(lines, key, write) <==> write(lines[0]) == Some(key) || HasLine(lines[1..], key, write)
  {
    if HasLine(lines, key, write) {
      var i :| 0 <= i < |lines| && write(lines[i]) == Some(key);
      if i > 0 { assert lines[1..][i - 1] == lines[i]; }
    }
    if HasLine(lines[1..], key, write) {
      var i :| 0 <= i < |lines[1..]| && write(lines[1..][i]) == Some(key);
      assert lines[i + 1] == lines[1..][i];
    }
  }

  lemma ReplacedTail(lines: seq<string>, updates: map<string, string>, i: nat, line: string, write: Writer)
    requires i < |lines| - 1
    requires var head := write(lines[0]);
             Replaced(lines[1..], if head.Some? then updates - {head.value} else updates, i, line, write)
    ensures Replaced(lines, updates, i + 1, line, write)
  {
    var key := write(lines[i + 1]);
    assert lines[1..][i] == lines[i + 1];
    if key.Some? { FirstForTail(lines, i, key.value, write); }
  }

  /**
    The old lines after an update, one for one: the first line of each updated key is the new setting, every
    other line, comments, blanks and repetitions included, is as it was; left over are the keys without a line.
   */
  lemma {:induction false} RewriteExactly(lines: seq<string>, updates: map<string, string>, write: Writer)
    ensures var (output, left) := Rewrite(lines, updates, write);
            && |output| == |lines|
            && (forall i :: 0 <= i < |lines| ==> Replaced(lines, updates, i, output[i], write))
            && (forall k :: k in left <==> k in updates && !HasLine(lines, k, write))
            && (forall k :: k in left ==> left[k] == updates[k])
  {
    if lines != [] {
      var head := write(lines[0]);
      var remaining := if head.Some? then updates - {head.value} else updates;
      assert head.Some? && head.value !in updates ==> remaining == updates;
      RewriteExactly(lines[1..], remaining, write);
      var (rest, left) := Rewrite(lines[1..], remaining, write);
      var (output, last) := Rewrite(lines, updates, write);
      assert last == left && output == [output[0]] + rest;
      forall k ensures HasLine(lines, k, write) <==> head == Some(k) || HasLine(lines[1..], k, write) {
        HasLineCons(lines, k, write);
      }
      if head.Some? { FirstForHead(lines, write); }
      forall i | 0 <= i < |rest| ensures Replaced(lines, updates, i + 1, rest[i], write) {
        ReplacedTail(lines, updates, i, rest[i], write);
      }
      forall i | 0 <= i < |lines| ensures Replaced(lines, updates, i, output[i], write) {
        if i > 0 { assert output[i] == rest[i - 1]; }
      }
    }
  }

  /** The settings that are added: one line for each key of the list. */
  ghost predicate AreSettings(added: seq<string>, order: seq<string>, updates: map<string, string>) {
    |added| == |order|
    && forall i :: 0 <= i < |order| ==> order[i] in updates && added[i] == order[i] + "=" + updates[order[i]]
  }

  /** A blank line unless the last old line is blank, the header comment, and the settings; nothing without keys. */
  ghost predicate IsAppended(output: seq<string>, out: seq<string>, order: seq<string>, updates: map<string, string>) {
    var n := |output|;
    && n <= |out| && out[..n] == output
    && if order == [] then |out| == n
       else
         var blank := if n > 0 && output[n - 1] != "" then 1 else 0;
         && |out| == n + blank + 1 + |order| && (blank == 1 ==> out[n] == "")
         && out[n + blank] == HEADER && AreSettings(out[n + blank + 1..], order, updates)
  }

  lemma AppendixAppends(output: seq<string>, order: seq<string>, left: map<string, string>,
                        updates: map<string, string>)
    requires Lists(order, left) && forall k :: k in left ==> k in updates && left[k] == updates[k]
    ensures IsAppended(output, output + Appendix(output, order, left), order, updates)
  {
    if order == [] {
      assert left == map[];
    } else {
      assert order[0] in left;
      SettingsAre(order, left, updates);
      var before := if output != [] && output[|output| - 1] != "" then [""] else [];
      Assembled(output, before, Settings(order, left), order, updates, Appendix(output, order, left));
    }
  }

  lemma AfterPrefix(xs: seq<string>, ys: seq<string>, zs: seq<string>)
    ensures (xs + (ys + zs))[|xs| + |ys|..] == zs && (xs + (ys + zs))[..|xs|] == xs
  {
  }

  lemma Assembled(output: seq<string>, before: seq<string>, settings: seq<string>, order: seq<string>,
                  updates: map<string, string>, added: seq<string>)
    requires order != [] && AreSettings(settings, order, updates)
    requires before == if output != [] && output[|output| - 1] != "" then [""] else []
    requires added == before + [HEADER] + settings
    ensures IsAppended(output, output + added, order, updates)
  {
    AfterPrefix(output, before + [HEADER], settings);
  }

  lemma SettingsAre(order: seq<string>, left: map<string, string>, updates: map<string, string>)
    requires forall k :: k in order ==> k in left && k in updates && left[k] == updates[k]
    ensures AreSettings(Settings(order, left), order, updates)
  {
  }

  /**
    An updated file, exactly: its old lines one for one, and, for the keys without a line, a blank line unless the
    last old line is blank, the header comment, and one setting each, in the order given.
   */
  lemma UpdateWritesExactly(lines: seq<string>, updates: map<string, string>, order: seq<string>, write: Writer)
    requires Lists(order, Rewrite(lines, updates, write).1)
    ensures var output := Rewrite(lines, updates, write).0;
            && |output| == |lines| && (forall i :: 0 <= i < |lines| ==> Replaced(lines, updates, i, output[i], write))
            && IsAppended(output, Updated(lines, updates, order, write), order, updates)
    ensures forall k :: k in order <==> k in updates && !HasLine(lines, k, write)
  {
    RewriteExactly(lines, updates, write);
    var (output, left) := Rewrite(lines, updates, write);
    AppendixAppends(output, order, left, updates);
  }
}
