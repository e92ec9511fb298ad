/** Rewriting the options of a PostgreSQL configuration file in place. */
module ConfigFile {
  import opened Names
  import opened ConfigLines

  type Options = map<string, string>

  ghost predicate ValidOptions(options: Options) {
    forall k :: k in options ==> IsOptionName(k)
  }

  /** The lines whose option is, or is not, among `keys`. */
  function Only(lines: seq<string>, keys: set<string>, inside: bool): seq<string> {
    if lines == [] then []
    else
      var line := lines[|lines| - 1];
      var init := Only(lines[..|lines| - 1], keys, inside);
      if (Key(line) in keys) == inside then init + [line] else init
  }

  function Keys(lines: seq<string>): set<string> {
    set i | 0 <= i < |lines| :: Key(lines[i])
  }

  /** The existing lines after the update: the first one of each option is replaced, later ones are dropped. */
  function Kept(lines: seq<string>, options: Options): seq<string> {
    if lines == [] then []
    else
      var init, line := lines[..|lines| - 1], lines[|lines| - 1];
      var key := Key(line);
      if key !in options then Kept(init, options) + [line]
      else if key in Keys(init) then Kept(init, options)
      else Kept(init, options) + [Render(key, options[key])]
  }

  /** The keys in order, each one once. */
  ghost predicate IsSortedList(list: seq<string>, keys: set<string>) {
    && (forall k :: k in list <==> k in keys)
    && (forall i, j :: 0 <= i < j < |list| ==> Before(list[i], list[j]))
  }

  /** Lines for the options in `list` that no line sets yet. */
  function Missing(list: seq<string>, present: set<string>, options: Options): seq<string>
    requires forall k :: k in list ==> k in options
  {
    if list == [] then []
    else
      var init, key := list[..|list| - 1], list[|list| - 1];
      if key in present then Missing(init, present, options)
      else Missing(init, present, options) + [Render(key, options[key])]
  }

  /** The updated file. */
  ghost predicate IsUpdate(lines: seq<string>, options: Options, result: seq<string>) {
    exists list :: IsSortedList(list, options.Keys) &&
      result == Kept(lines, options) + Missing(list, Keys(lines), options)
  }

  method SortedKeys(keys: set<string>) returns (list: seq<string>)
    ensures IsSortedList(list, keys)
  {
    list := [];
    var rest := keys;
    while rest != {}
      invariant rest <= keys && IsSortedList(list, keys - rest)
      invariant forall a, b :: a in list && b in rest ==> Before(a, b)
      decreases |rest|
    {
      var m := FirstKey(rest);
      list, rest := list + [m], rest - {m};
    }
  }

  method FirstKey(keys: set<string>) returns (m: string)
    requires keys != {}
    ensures m in keys && forall k :: k in keys && k != m ==> Before(m, k)
  {
    m :| m in keys;
    var rest := keys - {m};
    while rest != {}
      invariant m in keys && rest <= keys - {m}
      invariant forall k :: k in keys && k !in rest && k != m ==> Before(m, k)
      decreases |rest|
    {
      var k :| k in rest;
      BeforeIsTotal(m, k);
      if Before(k, m) {
        forall j | j in keys && j !in rest && j != m ensures Before(k, j) {
          BeforeIsTransitive(k, m, j);
        }
        m := k;
      }
      rest := rest - {k};
    }
  }

  /**
   Updates the options. The lines are compacted in place: what is written never overtakes what is read.
   The values of `options` are already quoted.
   */
  method UpdateConfigurationContents(lines: array<string>, options: Options) returns (result: seq<string>)
    modifies lines
    ensures IsUpdate(old(lines[..]), options, result)
  {
    ghost var input := lines[..];
    var foundKeys: set<string> := {};
    var index := 0;
    for i := 0 to lines.Length
      invariant 0 <= index <= i
      invariant lines[..index] == Kept(input[..i], options)
      invariant forall j :: i <= j < lines.Length ==> lines[j] == input[j]
      invariant foundKeys == Keys(input[..i]) * options.Keys
    {
      var line := lines[i];
      var key := Key(line);
      ghost var init := input[..i];
      assert input[..i + 1] == init + [line] && input[..i + 1][..i] == init;
      KeysAppend(init, line);
      if key in options {
        if key in foundKeys {
          continue;
        }
        foundKeys := foundKeys + {key};
        lines[index] := Render(key, options[key]);
      } else {
        lines[index] := line;
      }
      index := index + 1;
      assert lines[..index] == lines[..index - 1] + [lines[index - 1]];
    }
    assert input[..lines.Length] == input;
    result := lines[..index];
    var keysList := SortedKeys(options.Keys);
    var missing := MissingOptions(keysList, foundKeys, Keys(input), options);
    result := result + missing;
  }

  method MissingOptions(keysList: seq<string>, foundKeys: set<string>, ghost present: set<string>, options: Options)
    returns (lines: seq<string>)
    requires foundKeys == present * options.Keys && forall k :: k in keysList ==> k in options
    ensures lines == Missing(keysList, present, options)
  {
    lines := [];
    for i := 0 to |keysList|
      invariant lines == Missing(keysList[..i], present, options)
    {
      var key := keysList[i];
      assert keysList[..i + 1] == keysList[..i] + [key];
      if key !in foundKeys {
        lines := lines + [Render(key, options[key])];
      }
    }
    assert keysList[..|keysList|] == keysList;
  }

  /** Removes the given options, compacting the lines in place. */
  method RemoveOptionsFromConfigurationContents(lines: array<string>, options: set<string>)
    returns (result: seq<string>)
    modifies lines
    ensures result == Only(old(lines[..]), options, false)
  {
    ghost var input := lines[..];
    var index := 0;
    for i := 0 to lines.Length
      invariant 0 <= index <= i
      invariant lines[..index] == Only(input[..i], options, false)
      invariant forall j :: i <= j < lines.Length ==> lines[j] == input[j]
    {
      var line := lines[i];
      assert input[..i + 1] == input[..i] + [line] && input[..i + 1][..i] == input[..i];
      if Key(line) in options {
        continue;
      }
      lines[index] := line;
      index := index + 1;
      assert lines[..index] == lines[..index - 1] + [lines[index - 1]];
    }
    assert input[..lines.Length] == input;
    result := lines[..index];
  }

  lemma KeysAppend(lines: seq<string>, line: string)
    ensures Keys(lines + [line]) == Keys(lines) + {Key(line)}
  {
    var all := lines + [line];
    assert all[|lines|] == line;
    forall k | k in Keys(lines) ensures k in Keys(all) {
      var i :| 0 <= i < |lines| && Key(lines[i]) == k;
      assert all[i] == lines[i];
    }
  }
}
