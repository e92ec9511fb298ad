/** What rewriting a configuration file preserves, and that doing it twice is doing it once. */
module ConfigProperties {
  import opened Names
  import opened ConfigLines
  import opened ConfigFile

  /** The line that decides on `key` when the last entry wins (section 20.1.2 of the PostgreSQL documentation). */
  function Lookup(lines: seq<string>, key: string): Option<string> {
    if lines == [] then None
    else if Key(lines[|lines| - 1]) == key then Some(lines[|lines| - 1])
    else Lookup(lines[..|lines| - 1], key)
  }

  lemma OnlyOfOneMore(init: seq<string>, last: string, keys: set<string>, inside: bool)
    ensures Only(init + [last], keys, inside) ==
            Only(init, keys, inside) + if (Key(last) in keys) == inside then [last] else []
  {
    var lines := init + [last];
    assert lines[..|lines| - 1] == init && lines[|lines| - 1] == last;
  }

  lemma {:induction false} OnlyConcat(a: seq<string>, b: seq<string>, keys: set<string>, inside: bool)
    ensures Only(a + b, keys, inside) == Only(a, keys, inside) + Only(b, keys, inside)
  {
    if b == [] {
      assert a + b == a;
    } else {
      var init, last := b[..|b| - 1], b[|b| - 1];
      var more := if (Key(last) in keys) == inside then [last] else [];
      calc {
        Only(a + b, keys, inside);
        { assert b == init + [last]; AppendIsAssociative(a, init, [last]); }
        Only((a + init) + [last], keys, inside);
        { OnlyOfOneMore(a + init, last, keys, inside); }
        Only(a + init, keys, inside) + more;
        { OnlyConcat(a, init, keys, inside); }
        (Only(a, keys, inside) + Only(init, keys, inside)) + more;
        { AppendIsAssociative(Only(a, keys, inside), Only(init, keys, inside), more); }
        Only(a, keys, inside) + (Only(init, keys, inside) + more);
        { assert b == init + [last]; OnlyOfOneMore(init, last, keys, inside); }
        Only(a, keys, inside) + Only(b, keys, inside);
      }
    }
  }

  lemma AppendIsAssociative(a: seq<string>, b: seq<string>, c: seq<string>)
    ensures a + (b + c) == (a + b) + c
  {
  }

  /** Among the kept lines, an option that was set is set by exactly its new line, and an absent one not at all. */
  lemma {:induction false} KeptSetsOnce(lines: seq<string>, options: Options, k: string)
    requires ValidOptions(options) && k in options
    ensures Only(Kept(lines, options), {k}, true) == if k in Keys(lines) then [Render(k, options[k])] else []
  {
    if lines != [] {
      var init, line := lines[..|lines| - 1], lines[|lines| - 1];
      assert lines == init + [line];
      KeysAppend(init, line);
      KeptSetsOnce(init, options, k);
      var key := Key(line);
      var tail := if key !in options then [line] else if key in Keys(init) then [] else [Render(key, options[key])];
      assert Kept(lines, options) == Kept(init, options) + tail;
      OnlyConcat(Kept(init, options), tail, {k}, true);
      if key in options {
        RenderedKey(key, options[key]);
      }
      OnlySingle(tail, {k}, true);
    }
  }

  lemma OnlySingle(tail: seq<string>, keys: set<string>, inside: bool)
    requires |tail| <= 1
    ensures Only(tail, keys, inside) == if tail != [] && (Key(tail[0]) in keys) == inside then tail else []
  {
    if tail != [] {
      assert tail == [tail[0]];
    }
  }

  lemma {:induction false} MissingSetsOnce(list: seq<string>, present: set<string>, options: Options, k: string)
    requires ValidOptions(options) && forall j :: j in list ==> j in options
    requires forall i, j :: 0 <= i < j < |list| ==> list[i] != list[j]
    ensures Only(Missing(list, present, options), {k}, true) ==
            if k in list && k !in present then [Render(k, options[k])] else []
  {
    if list != [] {
      var init, key := list[..|list| - 1], list[|list| - 1];
      MissingSetsOnce(init, present, options, k);
      assert list == init + [key] && key !in init;
      if key !in present {
        RenderedKey(key, options[key]);
        OnlyOfOneMore(Missing(init, present, options), Render(key, options[key]), {k}, true);
      }
    }
  }

  lemma SortedListIsDistinct(list: seq<string>, keys: set<string>)
    requires IsSortedList(list, keys)
    ensures forall i, j :: 0 <= i < j < |list| ==> list[i] != list[j]
  {
    forall i, j | 0 <= i < j < |list| ensures list[i] != list[j] {
      BeforeIsAsymmetric(list[i], list[i]);
    }
  }

  /** After an update, each option is set by exactly one line, which carries its value. */
  lemma EachOptionIsSetOnce(lines: seq<string>, options: Options, result: seq<string>, k: string)
    requires ValidOptions(options) && IsUpdate(lines, options, result) && k in options
    ensures Only(result, {k}, true) == [Render(k, options[k])]
  {
    var list :| IsSortedList(list, options.Keys) &&
      result == Kept(lines, options) + Missing(list, Keys(lines), options);
    SortedListIsDistinct(list, options.Keys);
    KeptSetsOnce(lines, options, k);
    MissingSetsOnce(list, Keys(lines), options, k);
    OnlyConcat(Kept(lines, options), Missing(list, Keys(lines), options), {k}, true);
  }

  lemma {:induction false} KeptLeavesOthers(lines: seq<string>, options: Options)
    requires ValidOptions(options)
    ensures Only(Kept(lines, options), options.Keys, false) == Only(lines, options.Keys, false)
  {
    if lines != [] {
      var init, line := lines[..|lines| - 1], lines[|lines| - 1];
      KeptLeavesOthers(init, options);
      var key := Key(line);
      var tail := if key !in options then [line] else if key in Keys(init) then [] else [Render(key, options[key])];
      assert Kept(lines, options) == Kept(init, options) + tail;
      OnlyConcat(Kept(init, options), tail, options.Keys, false);
      if key in options {
        RenderedKey(key, options[key]);
      }
      OnlySingle(tail, options.Keys, false);
    }
  }

  lemma {:induction false} MissingHasOnlyOptions(list: seq<string>, present: set<string>, options: Options)
    requires ValidOptions(options) && forall j :: j in list ==> j in options
    ensures Only(Missing(list, present, options), options.Keys, false) == []
  {
    if list != [] {
      var init, key := list[..|list| - 1], list[|list| - 1];
      MissingHasOnlyOptions(init, present, options);
      var tail := if key in present then [] else [Render(key, options[key])];
      assert Missing(list, present, options) == Missing(init, present, options) + tail;
      OnlyConcat(Missing(init, present, options), tail, options.Keys, false);
      RenderedKey(key, options[key]);
      OnlySingle(tail, options.Keys, false);
    }
  }

  /** All lines that do not set one of the options stay, in their order. */
  lemma OtherLinesAreUntouched(lines: seq<string>, options: Options, result: seq<string>)
    requires ValidOptions(options) && IsUpdate(lines, options, result)
    ensures Only(result, options.Keys, false) == Only(lines, options.Keys, false)
  {
    var list :| IsSortedList(list, options.Keys) &&
      result == Kept(lines, options) + Missing(list, Keys(lines), options);
    KeptLeavesOthers(lines, options);
    MissingHasOnlyOptions(list, Keys(lines), options);
    OnlyConcat(Kept(lines, options), Missing(list, Keys(lines), options), options.Keys, false);
  }

  /** Which entry wins only depends on the lines that are not filtered out. */
  lemma {:induction false} LookupInOnly(lines: seq<string>, keys: set<string>, inside: bool, k: string)
    requires (k in keys) == inside
    ensures Lookup(Only(lines, keys, inside), k) == Lookup(lines, k)
  {
    if lines != [] {
      var init, line := lines[..|lines| - 1], lines[|lines| - 1];
      LookupInOnly(init, keys, inside, k);
      if (Key(line) in keys) == inside {
        assert Only(lines, keys, inside)[..|Only(lines, keys, inside)| - 1] == Only(init, keys, inside);
      }
    }
  }

  /** The meaning of the file: the old settings, overridden by the options. */
  lemma UpdateOverridesLookup(lines: seq<string>, options: Options, result: seq<string>, k: string)
    requires ValidOptions(options) && IsUpdate(lines, options, result)
    ensures Lookup(result, k) == if k in options then Some(Render(k, options[k])) else Lookup(lines, k)
  {
    if k in options {
      EachOptionIsSetOnce(lines, options, result, k);
      LookupInOnly(result, {k}, true, k);
      RenderedKey(k, options[k]);
      assert Lookup([Render(k, options[k])], k) == Some(Render(k, options[k]));
    } else {
      OtherLinesAreUntouched(lines, options, result);
      LookupInOnly(result, options.Keys, false, k);
      LookupInOnly(lines, options.Keys, false, k);
    }
  }

  // ---- The whole file operation ----

  /** Managed options that are not given are removed, then the given ones are updated. */
  function ToRemove(managed: set<string>, options: Options): set<string> { managed - options.Keys }

  ghost predicate IsRewrite(lines: seq<string>, options: Options, managed: set<string>, result: seq<string>) {
    IsUpdate(Only(lines, ToRemove(managed, options), false), options, result)
  }

  method RewriteConfigurationFile(lines: seq<string>, options: Options, managed: set<string>)
    returns (result: seq<string>)
    ensures IsRewrite(lines, options, managed, result)
  {
    var buffer := new string[|lines|](i requires 0 <= i < |lines| => lines[i]);
    assert buffer[..] == lines;
    var remaining := RemoveOptionsFromConfigurationContents(buffer, ToRemove(managed, options));
    var rest := new string[|remaining|](i requires 0 <= i < |remaining| => remaining[i]);
    assert rest[..] == remaining;
    result := UpdateConfigurationContents(rest, options);
  }

  lemma {:induction false} OnlyIsSelective(lines: seq<string>, keys: set<string>, inside: bool)
    ensures forall i :: 0 <= i < |Only(lines, keys, inside)| ==> (Key(Only(lines, keys, inside)[i]) in keys) == inside
  {
    if lines != [] {
      OnlyIsSelective(lines[..|lines| - 1], keys, inside);
    }
  }

  lemma {:induction false} OnlyOfSelected(lines: seq<string>, keys: set<string>, inside: bool)
    requires forall i :: 0 <= i < |lines| ==> (Key(lines[i]) in keys) == inside
    ensures Only(lines, keys, inside) == lines
  {
    if lines != [] {
      var init, last := lines[..|lines| - 1], lines[|lines| - 1];
      assert lines == init + [last] && (Key(last) in keys) == inside;
      OnlyOfSelected(init, keys, inside);
    }
  }

  /** A managed option that is not given is absent from the result. */
  lemma RemovedOptionsAreAbsent(lines: seq<string>, options: Options, managed: set<string>, result: seq<string>, i: nat)
    requires ValidOptions(options) && IsRewrite(lines, options, managed, result) && i < |result|
    ensures Key(result[i]) !in managed || Key(result[i]) in options
  {
    var removed := ToRemove(managed, options);
    var input := Only(lines, removed, false);
    OnlyIsSelective(lines, removed, false);
    if Key(result[i]) !in options {
      assert result[i] in input by {
        OtherLinesAreUntouched(input, options, result);
        OnlyContains(result, options.Keys, i);
        OnlyIsPart(input, options.Keys, result[i]);
      }
    }
  }

  lemma {:induction false} OnlyContains(lines: seq<string>, keys: set<string>, i: nat)
    requires i < |lines| && Key(lines[i]) !in keys
    ensures lines[i] in Only(lines, keys, false)
  {
    if i < |lines| - 1 {
      OnlyContains(lines[..|lines| - 1], keys, i);
    }
  }

  lemma {:induction false} OnlyIsPart(lines: seq<string>, keys: set<string>, line: string)
    requires line in Only(lines, keys, false)
    ensures line in lines
  {
    if lines != [] && line in Only(lines[..|lines| - 1], keys, false) {
      OnlyIsPart(lines[..|lines| - 1], keys, line);
    }
  }

  /** The line at `i` sets no option, or is the only one that sets its option, to its value. */
  predicate IsSettled(lines: seq<string>, options: Options, i: nat)
    requires i < |lines|
  {
    var k := Key(lines[i]);
    k in options ==> lines[i] == Render(k, options[k]) && forall j :: 0 <= j < |lines| && j != i ==> Key(lines[j]) != k
  }

  /** Updating settled lines changes none of them. */
  lemma {:induction false} KeptOfSettled(lines: seq<string>, options: Options)
    requires forall i :: 0 <= i < |lines| ==> IsSettled(lines, options, i)
    ensures Kept(lines, options) == lines
  {
    if lines != [] {
      var init, n := lines[..|lines| - 1], |lines| - 1;
      forall i | 0 <= i < |init| ensures IsSettled(init, options, i) {
        assert IsSettled(lines, options, i);
      }
      KeptOfSettled(init, options);
      assert IsSettled(lines, options, n);
      assert Key(lines[n]) in options ==> Key(lines[n]) !in Keys(init);
      assert lines == init + [lines[n]];
    }
  }

  lemma {:induction false} MissingNothing(list: seq<string>, present: set<string>, options: Options)
    requires forall k :: k in list ==> k in options && k in present
    ensures Missing(list, present, options) == []
  {
    if list != [] {
      MissingNothing(list[..|list| - 1], present, options);
    }
  }

  lemma {:induction false} OnlyHas(lines: seq<string>, k: string, i: nat)
    requires i < |lines| && Key(lines[i]) == k
    ensures lines[i] in Only(lines, {k}, true)
  {
    if i < |lines| - 1 {
      OnlyHas(lines[..|lines| - 1], k, i);
    }
  }

  lemma {:induction false} OnlyCounts(lines: seq<string>, k: string, i: nat, j: nat)
    requires i < j < |lines| && Key(lines[i]) == Key(lines[j]) == k
    ensures |Only(lines, {k}, true)| >= 2
  {
    var init, last := lines[..|lines| - 1], lines[|lines| - 1];
    assert lines == init + [last];
    OnlyOfOneMore(init, last, {k}, true);
    if j < |init| {
      OnlyCounts(init, k, i, j);
    } else {
      OnlyHas(init, k, i);
    }
  }

  /** Rewriting is a fixpoint: done a second time, it gives back the same lines. */
  lemma RewritingTwiceIsOnce(lines: seq<string>, options: Options, managed: set<string>,
                             once: seq<string>, twice: seq<string>)
    requires ValidOptions(options)
    requires IsRewrite(lines, options, managed, once) && IsRewrite(once, options, managed, twice)
    ensures twice == once
  {
    var removed := ToRemove(managed, options);
    var input := Only(lines, removed, false);
    forall i | 0 <= i < |once| ensures Key(once[i]) !in removed {
      RemovedOptionsAreAbsent(lines, options, managed, once, i);
    }
    OnlyOfSelected(once, removed, false);
    forall i | 0 <= i < |once| && Key(once[i]) in options ensures IsSettled(once, options, i) {
      var k := Key(once[i]);
      EachOptionIsSetOnce(input, options, once, k);
      OnlyHas(once, k, i);
      forall j | 0 <= j < |once| && j != i ensures Key(once[j]) != k {
        if Key(once[j]) == k {
          OnlyCounts(once, k, if i < j then i else j, if i < j then j else i);
        }
      }
    }
    KeptOfSettled(once, options);
    var list :| IsSortedList(list, options.Keys) &&
      twice == Kept(once, options) + Missing(list, Keys(once), options);
    forall k | k in list ensures k in Keys(once) {
      EachOptionIsSetOnce(input, options, once, k);
      assert Render(k, options[k]) in Only(once, {k}, true);
      OnlyIsKeyed(once, k);
    }
    MissingNothing(list, Keys(once), options);
  }

  lemma {:induction false} OnlyIsKeyed(lines: seq<string>, k: string)
    requires Only(lines, {k}, true) != []
    ensures k in Keys(lines)
  {
    var init, line := lines[..|lines| - 1], lines[|lines| - 1];
    assert lines == init + [line];
    KeysAppend(init, line);
    if Key(line) != k {
      OnlyIsKeyed(init, k);
    }
  }

  // ---- Through the file and back ----

  /** The lines that one written line is read back as. */
  function SplitLine(s: string): (r: seq<string>)
    ensures r != []
  {
    if s == "" then [""]
    else
      var rest := SplitLine(s[1..]);
      if s[0] == '\n' then [""] + rest else [[s[0]] + rest[0]] + rest[1..]
  }

  function Reread(lines: seq<string>): seq<string> {
    if lines == [] then [] else Reread(lines[..|lines| - 1]) + SplitLine(lines[|lines| - 1])
  }

  ghost predicate Unbroken(lines: seq<string>) {
    forall i :: 0 <= i < |lines| ==> '\n' !in lines[i]
  }

  lemma {:induction false} SplitOfUnbroken(s: string)
    requires '\n' !in s
    ensures SplitLine(s) == [s]
  {
    if s != "" {
      SplitOfUnbroken(s[1..]);
      assert s == [s[0]] + s[1..];
    }
  }

  lemma {:induction false} SplitAtBreak(a: string, b: string)
    requires '\n' !in a && '\n' !in b
    ensures SplitLine(a + "\n" + b) == [a, b]
  {
    var s := a + "\n" + b;
    if a == "" {
      assert s[1..] == b;
      SplitOfUnbroken(b);
    } else {
      assert s[1..] == a[1..] + "\n" + b && s[0] == a[0] && a == [a[0]] + a[1..];
      SplitAtBreak(a[1..], b);
    }
  }

  lemma RereadOfOneMore(init: seq<string>, last: string)
    ensures Reread(init + [last]) == Reread(init) + SplitLine(last)
  {
    var lines := init + [last];
    assert lines[..|lines| - 1] == init && lines[|lines| - 1] == last;
  }

  lemma {:induction false} RereadOfMore(lines: seq<string>, tail: seq<string>)
    requires Unbroken(tail)
    ensures Reread(lines + tail) == Reread(lines) + tail
  {
    if tail == [] {
      assert lines + tail == lines;
    } else {
      var init, last := tail[..|tail| - 1], tail[|tail| - 1];
      calc {
        Reread(lines + tail);
        { assert tail == init + [last]; AppendIsAssociative(lines, init, [last]); }
        Reread((lines + init) + [last]);
        { RereadOfOneMore(lines + init, last); SplitOfUnbroken(last); }
        Reread(lines + init) + [last];
        { RereadOfMore(lines, init); }
        (Reread(lines) + init) + [last];
        { assert tail == init + [last]; AppendIsAssociative(Reread(lines), init, [last]); }
        Reread(lines) + tail;
      }
    }
  }

  lemma {:induction false} KeptIsUnbroken(lines: seq<string>, options: Options)
    requires Unbroken(lines) && forall k :: k in options ==> '\n' !in Render(k, options[k])
    ensures Unbroken(Kept(lines, options))
  {
    if lines != [] {
      KeptIsUnbroken(lines[..|lines| - 1], options);
    }
  }

  lemma {:induction false} MissingIsUnbroken(list: seq<string>, present: set<string>, options: Options)
    requires forall k :: k in list ==> k in options && '\n' !in Render(k, options[k])
    ensures Unbroken(Missing(list, present, options))
  {
    if list != [] {
      MissingIsUnbroken(list[..|list| - 1], present, options);
    }
  }

  lemma {:induction false} OnlyIsUnbroken(lines: seq<string>, keys: set<string>, inside: bool)
    requires Unbroken(lines)
    ensures Unbroken(Only(lines, keys, inside))
  {
    if lines != [] {
      OnlyIsUnbroken(lines[..|lines| - 1], keys, inside);
    }
  }

  /** Rewriting is a fixpoint on files as well, as long as no option is written over several lines. */
  lemma RewritingFileTwiceIsOnce(lines: seq<string>, options: Options, managed: set<string>,
                                 once: seq<string>, twice: seq<string>)
    requires ValidOptions(options) && Unbroken(lines) && forall k :: k in options ==> '\n' !in Render(k, options[k])
    requires IsRewrite(lines, options, managed, once) && IsRewrite(Reread(once), options, managed, twice)
    ensures Reread(once) == once && twice == once
  {
    var input := Only(lines, ToRemove(managed, options), false);
    OnlyIsUnbroken(lines, ToRemove(managed, options), false);
    KeptIsUnbroken(input, options);
    var list :| IsSortedList(list, options.Keys) && once == Kept(input, options) + Missing(list, Keys(input), options);
    MissingIsUnbroken(list, Keys(input), options);
    RereadOfMore([], once);
    assert [] + once == once;
    RewritingTwiceIsOnce(lines, options, managed, once, twice);
  }

  lemma {:induction false} KeptOfMore(lines: seq<string>, tail: seq<string>, options: Options)
    requires forall i :: 0 <= i < |tail| ==> Key(tail[i]) !in options
    ensures Kept(lines + tail, options) == Kept(lines, options) + tail
    decreases |tail|
  {
    if tail == [] {
      assert lines + tail == lines;
    } else {
      var init, last := tail[..|tail| - 1], tail[|tail| - 1];
      calc {
        Kept(lines + tail, options);
        { assert tail == init + [last]; AppendIsAssociative(lines, init, [last]); }
        Kept((lines + init) + [last], options);
        { KeptOfOther(lines + init, last, options); }
        Kept(lines + init, options) + [last];
        { KeptOfMore(lines, init, options); }
        (Kept(lines, options) + init) + [last];
        { assert tail == init + [last]; AppendIsAssociative(Kept(lines, options), init, [last]); }
        Kept(lines, options) + tail;
      }
    }
  }

  lemma KeptOfOther(lines: seq<string>, last: string, options: Options)
    requires Key(last) !in options
    ensures Kept(lines + [last], options) == Kept(lines, options) + [last]
  {
    var more := lines + [last];
    assert more[..|more| - 1] == lines && more[|more| - 1] == last;
  }

  lemma RewriteOfOne(k: string, first: string, value: string, tail: seq<string>, result: seq<string>)
    requires IsOptionName(k) && forall i :: 0 <= i < |tail| ==> Key(tail[i]) != k
    requires IsRewrite([Render(k, first)] + tail, map[k := value], {}, result)
    ensures result == [Render(k, value)] + tail
  {
    var options, head := map[k := value], [Render(k, first)];
    var lines := head + tail;
    RenderedKey(k, first);
    assert ToRemove({}, options) == {};
    OnlyOfSelected(lines, {}, false);
    KeptOfMore(head, tail, options);
    assert head[..0] == [] && Kept(head, options) == [Render(k, value)];
    var list :| IsSortedList(list, options.Keys) &&
      result == Kept(lines, options) + Missing(list, Keys(lines), options);
    assert Key(lines[0]) == k;
    MissingNothing(list, Keys(lines), options);
  }

  lemma RereadOfOne(line: string)
    ensures Reread([line]) == SplitLine(line)
  {
    RereadOfOneMore([], line);
    assert [] + [line] == [line];
  }

  lemma SplitOfRendered(k: string, first: string, second: string)
    requires '\n' !in k && '\n' !in first && '\n' !in second
    ensures SplitLine(Render(k, first + "\n" + second)) == [Render(k, first), second]
  {
    assert Render(k, first + "\n" + second) == Render(k, first) + "\n" + second;
    SplitAtBreak(Render(k, first), second);
  }

  lemma RereadOfBroken(k: string, first: string, second: string, tail: seq<string>)
    requires '\n' !in k && '\n' !in first && '\n' !in second && Unbroken(tail)
    ensures Reread([Render(k, first + "\n" + second)] + tail) == [Render(k, first)] + ([second] + tail)
  {
    var whole := Render(k, first + "\n" + second);
    RereadOfMore([whole], tail);
    RereadOfOne(whole);
    SplitOfRendered(k, first, second);
    assert [Render(k, first), second] + tail == [Render(k, first)] + ([second] + tail);
  }

  /** A quoted value with a line break is read back as two lines: each rewriting of the file adds the second again. */
  lemma BrokenValueGrowsFile(k: string, first: string, second: string, tail: seq<string>, result: seq<string>)
    requires IsOptionName(k) && '\n' !in k && '\n' !in first && '\n' !in second && Key(second) != k
    requires Unbroken(tail) && forall i :: 0 <= i < |tail| ==> Key(tail[i]) != k
    requires IsRewrite([Render(k, first)] + tail, map[k := first + "\n" + second], {}, result)
    ensures Reread(result) == [Render(k, first)] + ([second] + tail)
  {
    RewriteOfOne(k, first, first + "\n" + second, tail, result);
    RereadOfBroken(k, first, second, tail);
  }

  // ---- Include directives ----

  function IncludeLine(file: string): string { "include '" + file + "'" }

  predicate IsIncluded(lines: seq<string>, file: string) {
    exists i :: 0 <= i < |lines| && TrimSpace(lines[i]) == IncludeLine(file)
  }

  function IncludeBlock(file: string): seq<string> {
    ["", "# load CloudNativePG " + file + " configuration", IncludeLine(file)]
  }

  function Blocks(lines: seq<string>, files: seq<string>): seq<string> {
    if files == [] then []
    else
      var init, file := files[..|files| - 1], files[|files| - 1];
      Blocks(lines, init) + if IsIncluded(lines, file) then [] else IncludeBlock(file)
  }

  method EnsureIncludes(lines: seq<string>, files: seq<string>) returns (result: seq<string>, changed: bool)
    ensures result == lines + Blocks(lines, files)
    ensures changed <==> exists f :: f in files && !IsIncluded(lines, f)
  {
    var toAdd := set f | f in files;
    for i := 0 to |lines|
      invariant toAdd == set f | f in files && !IsIncluded(lines[..i], f)
    {
      var trimmed := TrimSpace(lines[i]);
      assert lines[..i + 1] == lines[..i] + [lines[i]];
      forall f ensures IsIncluded(lines[..i + 1], f) <==> IsIncluded(lines[..i], f) || trimmed == IncludeLine(f) {
        if IsIncluded(lines[..i], f) {
          var j :| 0 <= j < i && TrimSpace(lines[..i][j]) == IncludeLine(f);
          assert lines[..i + 1][j] == lines[..i][j];
        }
        if trimmed == IncludeLine(f) {
          assert lines[..i + 1][i] == lines[i];
        }
      }
      toAdd := set f | f in toAdd && trimmed != IncludeLine(f);
    }
    assert lines[..|lines|] == lines;
    result := lines;
    if toAdd == {} {
      forall f | f in files ensures IsIncluded(lines, f) {
        assert f !in toAdd;
      }
      AllIncluded(lines, files);
      return result, false;
    }
    changed := true;
    assert exists f :: f in toAdd;
    for i := 0 to |files|
      invariant result == lines + Blocks(lines, files[..i])
    {
      assert files[..i + 1] == files[..i] + [files[i]];
      if files[i] in toAdd {
        result := result + IncludeBlock(files[i]);
      }
    }
    assert files[..|files|] == files;
  }

  lemma {:induction false} AllIncluded(lines: seq<string>, files: seq<string>)
    requires forall f :: f in files ==> IsIncluded(lines, f)
    ensures Blocks(lines, files) == []
  {
    if files != [] {
      AllIncluded(lines, files[..|files| - 1]);
    }
  }

  lemma {:induction false} BlocksInclude(lines: seq<string>, files: seq<string>, file: string)
    requires file in files
    ensures IsIncluded(lines + Blocks(lines, files), file)
  {
    var init, last := files[..|files| - 1], files[|files| - 1];
    var all := lines + Blocks(lines, files);
    if IsIncluded(lines, file) {
      var i :| 0 <= i < |lines| && TrimSpace(lines[i]) == IncludeLine(file);
      assert all[i] == lines[i];
    } else if file == last {
      TrimmedIsFixed(IncludeLine(file));
      assert all[|all| - 1] == IncludeLine(file);
    } else {
      BlocksInclude(lines, init, file);
      var before := lines + Blocks(lines, init);
      var i :| 0 <= i < |before| && TrimSpace(before[i]) == IncludeLine(file);
      assert all[i] == before[i];
    }
  }

  /** Every file is included after one pass, existing lines are kept, and a second pass adds nothing. */
  lemma IncludingTwiceIsOnce(lines: seq<string>, files: seq<string>)
    ensures var once := lines + Blocks(lines, files);
      lines <= once && (forall f :: f in files ==> IsIncluded(once, f)) && Blocks(once, files) == []
  {
    var once := lines + Blocks(lines, files);
    forall f | f in files ensures IsIncluded(once, f) {
      BlocksInclude(lines, files, f);
    }
    AllIncluded(once, files);
  }
}
