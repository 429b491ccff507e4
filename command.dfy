/**
  The command names of the to-do tool (`enum Command` and its `FromStr` in
  src/lib.rs). The name typed by the user is lower-cased and matched against
  a fixed table, in order, by prefix.
 */
module Commands {
  import opened Wrappers
  import opened Message

  datatype Command = Add | Finish | List | Clear | Help

  /** The table `from_str` searches, in its order. */
  const Table: seq<(string, Command)> :=
    [("add", Add), ("finish", Finish), ("list", List), ("clear", Clear), ("help", Help)]

  const NoMatchingCommand: string := "NO-MATCHING-COMMAND"

  /** ASCII lower-casing of one character. */
  function LowerChar(c: char): (d: char)
    ensures !('A' <= d <= 'Z')
    ensures !('A' <= c <= 'Z') ==> d == c
  {
    if 'A' <= c <= 'Z' then (c as int - 'A' as int + 'a' as int) as char else c
  }

  /** `str::to_lowercase`, restricted to ASCII letters. */
  function ToLower(s: string): (r: string)
    ensures |r| == |s|
    ensures forall i :: 0 <= i < |s| ==> r[i] == LowerChar(s[i])
  {
    if s == [] then [] else [LowerChar(s[0])] + ToLower(s[1..])
  }

  /** Lower-casing a lower-case string changes nothing. */
  lemma ToLowerIdempotent(s: string)
    ensures ToLower(ToLower(s)) == ToLower(s)
  {
  }

  /** `text` equals the first `|text|` characters of `name`. */
  predicate IsPrefix(text: string, name: string)
  {
    |text| <= |name| && name[..|text|] == text
  }

  /** `text` is a prefix of `name` and shorter than it. */
  predicate IsProperPrefix(text: string, name: string)
  {
    |text| < |name| && name[..|text|] == text
  }

  /** `(lo..hi).any(|upper| text == &command[..upper])`. */
  function AnyPrefixIn(text: string, command: string, lo: nat, hi: nat): bool
    requires hi <= |command| + 1
    decreases hi - lo
  {
    lo < hi && (text == command[..lo] || AnyPrefixIn(text, command, lo + 1, hi))
  }

  /** The scan over `lo..hi` accepts exactly the prefixes whose length lies in that range. */
  lemma {:induction false} AnyPrefixInIff(text: string, command: string, lo: nat, hi: nat)
    requires hi <= |command| + 1
    ensures AnyPrefixIn(text, command, lo, hi) <==> lo <= |text| < hi && command[..|text|] == text
    decreases hi - lo
  {
    if lo < hi {
      AnyPrefixInIff(text, command, lo + 1, hi);
    }
  }

  /**
    Whether the table entry `command` accepts `text`: the scan runs over
    `0..command.len()` as written, or over `0..=command.len()` when `inclusive`.
   */
  function Accepts(text: string, command: string, inclusive: bool): (b: bool)
    ensures b <==> if inclusive then IsPrefix(text, command) else IsProperPrefix(text, command)
  {
    var hi := if inclusive then |command| + 1 else |command|;
    AnyPrefixInIff(text, command, 0, hi);
    AnyPrefixIn(text, command, 0, hi)
  }

  /** `find_map` over `table`: the variant of the first entry that accepts `text`. */
  function FindVariant(text: string, table: seq<(string, Command)>, inclusive: bool): (r: Option<Command>)
    ensures r.None? <==> forall i :: 0 <= i < |table| ==> !Accepts(text, table[i].0, inclusive)
    ensures r.Some? ==> exists i :: 0 <= i < |table| && table[i].1 == r.value && Accepts(text, table[i].0, inclusive)
                                   && forall j :: 0 <= j < i ==> !Accepts(text, table[j].0, inclusive)
  {
    if table == [] then None
    else if Accepts(text, table[0].0, inclusive) then Some(table[0].1)
    else
      var r := FindVariant(text, table[1..], inclusive);
      assert forall i :: 1 <= i < |table| ==> table[i] == table[1..][i - 1];
      r
  }

  /** `Command::from_str`, as written: the proper prefixes of each name. */
  function FromStr(text: string): (r: Result<Command, string>)
    ensures r.Err? ==> r.error == NoMatchingCommand
  {
    OrErrorOption(FindVariant(ToLower(text), Table, false), NoMatchingCommand)
  }

  /**
    `from_str` returns the first of Add, Finish, List, Clear, Help whose name
    has the lower-cased input as a proper prefix, or the NO-MATCHING-COMMAND
    error when none does.
   */
  lemma FromStrSpec(text: string)
    ensures FromStr(text) ==
      var l := ToLower(text);
      if IsProperPrefix(l, "add") then Ok(Add)
      else if IsProperPrefix(l, "finish") then Ok(Finish)
      else if IsProperPrefix(l, "list") then Ok(List)
      else if IsProperPrefix(l, "clear") then Ok(Clear)
      else if IsProperPrefix(l, "help") then Ok(Help)
      else Err(NoMatchingCommand)
  {
    var l := ToLower(text);
    var t1, t2, t3, t4 := Table[1..], Table[2..], Table[3..], Table[4..];
    assert t1[1..] == t2 && t2[1..] == t3 && t3[1..] == t4 && t4[1..] == [];
    assert FindVariant(l, t4, false) == if Accepts(l, "help", false) then Some(Help) else None;
    assert FindVariant(l, t3, false) == if Accepts(l, "clear", false) then Some(Clear) else FindVariant(l, t4, false);
    assert FindVariant(l, t2, false) == if Accepts(l, "list", false) then Some(List) else FindVariant(l, t3, false);
    assert FindVariant(l, t1, false) == if Accepts(l, "finish", false) then Some(Finish) else FindVariant(l, t2, false);
    assert FindVariant(l, Table, false) == if Accepts(l, "add", false) then Some(Add) else FindVariant(l, t1, false);
  }

  /** Matching ignores ASCII case. */
  lemma FromStrIgnoresCase(text: string)
    ensures FromStr(text) == FromStr(ToLower(text))
  {
    ToLowerIdempotent(text);
  }

  /** The empty command, and any proper prefix of `add`, selects Add. */
  lemma EmptySelectsAdd()
    ensures FromStr("") == Ok(Add)
    ensures FromStr("a") == Ok(Add) && FromStr("ad") == Ok(Add)
  {
  }

  /**
    The complete set of inputs `from_str` accepts, after lower-casing: the
    proper prefixes of the five names. The empty string and `a` to `ad` select
    Add; `f` to `finis` Finish; `l` to `lis` List; `c` to `clea` Clear; `h`
    to `hel` Help.
   */
  lemma FromStrAcceptsExactly(text: string)
    ensures FromStr(text).Ok? <==> ToLower(text) in AcceptedAsWritten
  {
    FromStrAcceptsProperPrefixes(text);
    NamePrefixes();
  }

  /** Every lower-cased input `from_str` accepts, as written. */
  const AcceptedAsWritten: set<string> :=
    {"", "a", "ad", "f", "fi", "fin", "fini", "finis", "l", "li", "lis",
     "c", "cl", "cle", "clea", "h", "he", "hel"}

  /** The accepted inputs are the union of the names' proper prefixes. */
  lemma FromStrAcceptsProperPrefixes(text: string)
    ensures FromStr(text).Ok? <==>
              ToLower(text) in ProperPrefixes("add") + ProperPrefixes("finish") + ProperPrefixes("list")
                               + ProperPrefixes("clear") + ProperPrefixes("help")
  {
    FromStrSpec(text);
    var l := ToLower(text);
    ProperPrefixesOf(l, "add");
    ProperPrefixesOf(l, "finish");
    ProperPrefixesOf(l, "list");
    ProperPrefixesOf(l, "clear");
    ProperPrefixesOf(l, "help");
  }

  /**
    The proper prefixes of the five names, spelled out. The solver evaluates
    ProperPrefixes on a literal one character at a time, so each step is given.
   */
  lemma NamePrefixes()
    ensures ProperPrefixes("add") == {"", "a", "ad"}
    ensures ProperPrefixes("finish") == {"", "f", "fi", "fin", "fini", "finis"}
    ensures ProperPrefixes("list") == {"", "l", "li", "lis"}
    ensures ProperPrefixes("clear") == {"", "c", "cl", "cle", "clea"}
    ensures ProperPrefixes("help") == {"", "h", "he", "hel"}
    ensures ProperPrefixes("add") + ProperPrefixes("finish") + ProperPrefixes("list")
            + ProperPrefixes("clear") + ProperPrefixes("help") == AcceptedAsWritten
  {
    assert "a"[..0] == "";
    assert ProperPrefixes("a") == {""};
    assert "ad"[..1] == "a";
    assert ProperPrefixes("ad") == {"", "a"};
    assert "add"[..2] == "ad";
    assert ProperPrefixes("add") == {"", "a", "ad"};
    assert "f"[..0] == "";
    assert ProperPrefixes("f") == {""};
    assert "fi"[..1] == "f";
    assert ProperPrefixes("fi") == {"", "f"};
    assert "fin"[..2] == "fi";
    assert ProperPrefixes("fin") == {"", "f", "fi"};
    assert "fini"[..3] == "fin";
    assert ProperPrefixes("fini") == {"", "f", "fi", "fin"};
    assert "finis"[..4] == "fini";
    assert ProperPrefixes("finis") == {"", "f", "fi", "fin", "fini"};
    assert "finish"[..5] == "finis";
    assert ProperPrefixes("finish") == {"", "f", "fi", "fin", "fini", "finis"};
    assert "l"[..0] == "";
    assert ProperPrefixes("l") == {""};
    assert "li"[..1] == "l";
    assert ProperPrefixes("li") == {"", "l"};
    assert "lis"[..2] == "li";
    assert ProperPrefixes("lis") == {"", "l", "li"};
    assert "list"[..3] == "lis";
    assert ProperPrefixes("list") == {"", "l", "li", "lis"};
    assert "c"[..0] == "";
    assert ProperPrefixes("c") == {""};
    assert "cl"[..1] == "c";
    assert ProperPrefixes("cl") == {"", "c"};
    assert "cle"[..2] == "cl";
    assert ProperPrefixes("cle") == {"", "c", "cl"};
    assert "clea"[..3] == "cle";
    assert ProperPrefixes("clea") == {"", "c", "cl", "cle"};
    assert "clear"[..4] == "clea";
    assert ProperPrefixes("clear") == {"", "c", "cl", "cle", "clea"};
    assert "h"[..0] == "";
    assert ProperPrefixes("h") == {""};
    assert "he"[..1] == "h";
    assert ProperPrefixes("he") == {"", "h"};
    assert "hel"[..2] == "he";
    assert ProperPrefixes("hel") == {"", "h", "he"};
    assert "help"[..3] == "hel";
    assert ProperPrefixes("help") == {"", "h", "he", "hel"};
  }

  /** The proper prefixes of `name`: all but the longest of its prefixes. */
  function ProperPrefixes(name: string): set<string>
  {
    if name == [] then {} else ProperPrefixes(name[..|name| - 1]) + {name[..|name| - 1]}
  }

  lemma {:induction false} ProperPrefixesOf(text: string, name: string)
    ensures IsProperPrefix(text, name) <==> text in ProperPrefixes(name)
    decreases |name|
  {
    if name != [] {
      var shorter := name[..|name| - 1];
      ProperPrefixesOf(text, shorter);
      if |text| < |shorter| {
        assert shorter[..|text|] == name[..|text|];
      }
    }
  }

  /** Every name is spelled in lower-case ASCII, so lower-casing leaves it alone. */
  lemma ToLowerOfName(i: nat)
    requires i < |Table|
    ensures ToLower(Table[i].0) == Table[i].0
  {
  }

  /** As written, no command can be selected by its full name. */
  lemma FullNamesRejected(i: nat)
    requires i < |Table|
    ensures FromStr(Table[i].0) == Err(NoMatchingCommand)
  {
    ToLowerOfName(i);
    FromStrSpec(Table[i].0);
  }

  /** `Command::from_str` with the range `0..=command.len()`, so that full names match too. */
  function FromStrInclusive(text: string): (r: Result<Command, string>)
    ensures r.Err? ==> r.error == NoMatchingCommand
  {
    OrErrorOption(FindVariant(ToLower(text), Table, true), NoMatchingCommand)
  }

  lemma FromStrInclusiveSpec(text: string)
    ensures FromStrInclusive(text) ==
      var l := ToLower(text);
      if IsPrefix(l, "add") then Ok(Add)
      else if IsPrefix(l, "finish") then Ok(Finish)
      else if IsPrefix(l, "list") then Ok(List)
      else if IsPrefix(l, "clear") then Ok(Clear)
      else if IsPrefix(l, "help") then Ok(Help)
      else Err(NoMatchingCommand)
  {
    var l := ToLower(text);
    var t1, t2, t3, t4 := Table[1..], Table[2..], Table[3..], Table[4..];
    assert t1[1..] == t2 && t2[1..] == t3 && t3[1..] == t4 && t4[1..] == [];
    assert FindVariant(l, t4, true) == if Accepts(l, "help", true) then Some(Help) else None;
    assert FindVariant(l, t3, true) == if Accepts(l, "clear", true) then Some(Clear) else FindVariant(l, t4, true);
    assert FindVariant(l, t2, true) == if Accepts(l, "list", true) then Some(List) else FindVariant(l, t3, true);
    assert FindVariant(l, t1, true) == if Accepts(l, "finish", true) then Some(Finish) else FindVariant(l, t2, true);
    assert FindVariant(l, Table, true) == if Accepts(l, "add", true) then Some(Add) else FindVariant(l, t1, true);
  }

  /** With the inclusive range every command is selected by its full name. */
  lemma FullNamesAccepted(i: nat)
    requires i < |Table|
    ensures FromStrInclusive(Table[i].0) == Ok(Table[i].1)
  {
    ToLowerOfName(i);
    FromStrInclusiveSpec(Table[i].0);
  }

  /** The correction changes the outcome of nothing that was accepted before. */
  lemma InclusiveExtendsAsWritten(text: string)
    requires FromStr(text).Ok?
    ensures FromStrInclusive(text) == FromStr(text)
  {
  }

  /** The inputs that only the correction accepts are the five full names. */
  lemma InclusiveAddsOnlyFullNames(text: string)
    requires FromStrInclusive(text).Ok? && FromStr(text).Err?
    ensures ToLower(text) in {"add", "finish", "list", "clear", "help"}
  {
    FromStrSpec(text);
    FromStrInclusiveSpec(text);
    var l := ToLower(text);
    if IsPrefix(l, "add") {
      assert l == "add";
    } else if IsPrefix(l, "finish") {
      assert l == "finish";
    } else if IsPrefix(l, "list") {
      assert l == "list";
    } else if IsPrefix(l, "clear") {
      assert l == "clear";
    } else {
      assert l == "help";
    }
  }
}
