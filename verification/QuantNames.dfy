/** Stage-prefix normalisation of quantization names: the values stored in a quantization dict. */
module QuantNames {
  import opened Wrappers

  datatype Blocks = NoBlocks | Joined(text: string) | Listed(entries: seq<string>)

  datatype Entry = Entry(key: string, value: int)

  /** What the normaliser reads and writes of a quantization dict: `block_name_to_quantize`, and
      `extra_config` in insertion order (empty when absent or not a dict). */
  datatype Content = Content(blocks: Blocks, extra: seq<Entry>)

  // ---------- Python's str.split(","), str.strip() and ",".join ----------

  predicate IsSpace(c: char) { c == ' ' || c == '\t' || c == '\n' || c == '\r' }

  function TrimLeft(s: string): string {
    if s != "" && IsSpace(s[0]) then TrimLeft(s[1..]) else s
  }

  function TrimRight(s: string): string {
    if s != "" && IsSpace(s[|s| - 1]) then TrimRight(s[..|s| - 1]) else s
  }

  function Trim(s: string): string { TrimRight(TrimLeft(s)) }

  /** The comma-separated fields, always at least one. */
  function Fields(s: string): (r: seq<string>)
    ensures r != []
  {
    if s == "" then [""]
    else
      var rest := Fields(s[1..]);
      if s[0] == ',' then [""] + rest else [[s[0]] + rest[0]] + rest[1..]
  }

  function Join(xs: seq<string>): string {
    if xs == [] then "" else if |xs| == 1 then xs[0] else xs[0] + "," + Join(xs[1..])
  }

  /** [b.strip() for b in xs if b.strip()] */
  function Trimmed(xs: seq<string>): seq<string> {
    if xs == [] then []
    else (if Trim(xs[0]) == "" then [] else [Trim(xs[0])]) + Trimmed(xs[1..])
  }

  function SplitBlocks(text: string): seq<string> { Trimmed(Fields(text)) }

  // ---------- block names ----------

  function StripBlock(entry: string, prefix: string): string {
    if prefix <= entry then entry[|prefix|..] else entry
  }

  function StripAll(xs: seq<string>, prefix: string): (r: seq<string>)
    ensures |r| == |xs| && forall k | 0 <= k < |r| :: r[k] == StripBlock(xs[k], prefix)
  { seq(|xs|, k requires 0 <= k < |xs| => StripBlock(xs[k], prefix)) }

  function NormalBlocks(b: Blocks, prefix: string): Blocks {
    match b
    case NoBlocks => b
    case Joined(text) =>
      var list := SplitBlocks(text);
      if StripAll(list, prefix) == list then b else Joined(Join(StripAll(list, prefix)))
    case Listed(entries) => Listed(StripAll(entries, prefix))
  }

  /** The block names a value stands for. */
  function Names(b: Blocks): seq<string> {
    match b
    case NoBlocks => []
    case Joined(text) => SplitBlocks(text)
    case Listed(entries) => entries
  }

  ghost predicate CommaFree(s: string) { forall k | 0 <= k < |s| :: s[k] != ',' }

  lemma {:induction false} FieldsOfPlain(s: string)
    requires CommaFree(s)
    ensures Fields(s) == [s]
  {
    if s != "" {
      FieldsOfPlain(s[1..]);
      assert [s[0]] + s[1..] == s;
    }
  }

  lemma {:induction false} FieldsOfJoin(s: string, t: string)
    requires CommaFree(s)
    ensures Fields(s + "," + t) == [s] + Fields(t)
  {
    if s == "" {
      assert ("" + "," + t)[1..] == t;
    } else {
      FieldsOfJoin(s[1..], t);
      assert (s + "," + t)[1..] == s[1..] + "," + t;
      assert [s[0]] + s[1..] == s;
    }
  }

  /** Splitting what was joined gives the parts back. */
  lemma {:induction false} SplitJoin(xs: seq<string>)
    requires xs != [] && forall k | 0 <= k < |xs| :: CommaFree(xs[k])
    ensures Fields(Join(xs)) == xs
  {
    if |xs| == 1 {
      FieldsOfPlain(xs[0]);
    } else {
      SplitJoin(xs[1..]);
      FieldsOfJoin(xs[0], Join(xs[1..]));
      assert xs == [xs[0]] + xs[1..];
    }
  }

  lemma {:induction false} FieldsCommaFree(s: string)
    ensures forall k | 0 <= k < |Fields(s)| :: CommaFree(Fields(s)[k])
  {
    if s != "" { FieldsCommaFree(s[1..]); }
  }

  lemma {:induction false} TrimCommaFree(s: string)
    requires CommaFree(s)
    ensures CommaFree(TrimLeft(s)) && CommaFree(TrimRight(s))
  {
    if s != "" {
      if IsSpace(s[0]) { TrimCommaFree(s[1..]); }
      if IsSpace(s[|s| - 1]) { TrimCommaFree(s[..|s| - 1]); }
    }
  }

  lemma {:induction false} TrimmedCommaFree(xs: seq<string>)
    requires forall k | 0 <= k < |xs| :: CommaFree(xs[k])
    ensures forall k | 0 <= k < |Trimmed(xs)| :: CommaFree(Trimmed(xs)[k])
  {
    if xs != [] {
      TrimCommaFree(xs[0]);
      TrimCommaFree(TrimLeft(xs[0]));
      TrimmedCommaFree(xs[1..]);
    }
  }

  /** After normalisation the names are the old names, each having lost one leading prefix; in
      the comma-separated form what is left of a name is trimmed, and dropped when empty. */
  lemma {:induction false} NormalNames(b: Blocks, prefix: string)
    ensures Names(NormalBlocks(b, prefix)) ==
      if b.Joined? && StripAll(Names(b), prefix) != Names(b) then Trimmed(StripAll(Names(b), prefix))
      else StripAll(Names(b), prefix)
  {
    if b.Joined? {
      var list := SplitBlocks(b.text);
      FieldsCommaFree(b.text);
      TrimmedCommaFree(Fields(b.text));
      if StripAll(list, prefix) != list {
        SplitJoin(StripAll(list, prefix));
      }
    }
  }

  /** What is left of a name that carries the prefix; comma-separated names are trimmed when they
      are read again. */
  function Rest(trims: bool, name: string, prefix: string): string
    requires prefix <= name
  { if trims then Trim(name[|prefix|..]) else name[|prefix|..] }

  /** Read as names local to the stage: n is selected afterwards exactly when it is the rest of a
      name that carried the prefix, or was itself selected and does not carry it. */
  lemma {:induction false} LocalNames(b: Blocks, prefix: string, n: string)
    requires b.Joined? ==> n != ""
    ensures n in Names(NormalBlocks(b, prefix)) <==>
      || (exists e :: e in Names(b) && prefix <= e && Rest(b.Joined?, e, prefix) == n)
      || (n in Names(b) && !(prefix <= n))
  {
    var names := Names(b);
    var after := StripAll(names, prefix);
    NormalNames(b, prefix);
    NamesTrimmed(b);
    InTrimmed(after, n);
    StrippedMembers(names, prefix);
    if b.Joined? && after == names {
      forall e | e in names ensures Trim(StripBlock(e, prefix)) == e {
        var k :| 0 <= k < |names| && names[k] == e;
        assert after[k] == e;
      }
    }
    hide Names, NormalBlocks, Trim, Trimmed;
    if b.Joined? {
      forall e | e in names
        ensures Trim(StripBlock(e, prefix)) == if prefix <= e then Rest(true, e, prefix) else e
      {}
    }
  }

  lemma {:induction false} StrippedMembers(names: seq<string>, prefix: string)
    ensures forall x :: x in StripAll(names, prefix) <==> exists e :: e in names && StripBlock(e, prefix) == x
  {
    var after := StripAll(names, prefix);
    forall x ensures x in after <==> exists e :: e in names && StripBlock(e, prefix) == x {
      if x in after {
        var k :| 0 <= k < |after| && after[k] == x;
        assert names[k] in names;
      }
      if e :| e in names && StripBlock(e, prefix) == x {
        var k :| 0 <= k < |names| && names[k] == e;
        assert after[k] == x;
      }
    }
  }

  lemma {:induction false} InTrimmed(xs: seq<string>, n: string)
    ensures n in Trimmed(xs) <==> n != "" && exists x :: x in xs && Trim(x) == n
  {
    if xs != [] {
      InTrimmed(xs[1..], n);
      assert forall x :: x in xs <==> x == xs[0] || x in xs[1..];
    }
  }

  ghost predicate Tight(s: string) { s != "" ==> !IsSpace(s[0]) && !IsSpace(s[|s| - 1]) }

  lemma {:induction false} TrimLeftStart(s: string)
    ensures TrimLeft(s) != "" ==> !IsSpace(TrimLeft(s)[0])
    ensures s != "" && !IsSpace(s[0]) ==> TrimLeft(s) == s
    ensures |TrimLeft(s)| <= |s|
  {
    if s != "" && IsSpace(s[0]) { TrimLeftStart(s[1..]); }
  }

  lemma {:induction false} TrimRightEnd(s: string)
    ensures TrimRight(s) <= s
    ensures TrimRight(s) != "" ==> !IsSpace(TrimRight(s)[|TrimRight(s)| - 1])
    ensures s != "" && !IsSpace(s[|s| - 1]) ==> TrimRight(s) == s
  {
    if s != "" && IsSpace(s[|s| - 1]) { TrimRightEnd(s[..|s| - 1]); }
  }

  lemma {:induction false} TrimTight(s: string)
    ensures Tight(Trim(s)) && (Tight(s) ==> Trim(s) == s) && |Trim(s)| <= |s|
  {
    TrimLeftStart(s);
    TrimRightEnd(TrimLeft(s));
    TrimRightEnd(s);
  }

  /** Trimming takes blanks off both ends and nothing else. */
  lemma {:induction false} TrimTakesBlanks(s: string) returns (left: string, right: string)
    ensures s == left + Trim(s) + right
    ensures forall c | c in left || c in right :: c in {' ', '\t', '\n', '\r'}
  {
    left := LeftBlanks(s);
    right := RightBlanks(TrimLeft(s));
    assert s == left + (Trim(s) + right);
  }

  lemma {:induction false} LeftBlanks(s: string) returns (left: string)
    ensures s == left + TrimLeft(s) && forall c | c in left :: c in {' ', '\t', '\n', '\r'}
  {
    left := "";
    if s != "" && IsSpace(s[0]) {
      var more := LeftBlanks(s[1..]);
      left := [s[0]] + more;
      assert s == [s[0]] + s[1..];
    }
  }

  lemma {:induction false} RightBlanks(s: string) returns (right: string)
    ensures s == TrimRight(s) + right && forall c | c in right :: c in {' ', '\t', '\n', '\r'}
  {
    right := "";
    if s != "" && IsSpace(s[|s| - 1]) {
      var more := RightBlanks(s[..|s| - 1]);
      right := more + [s[|s| - 1]];
      assert s == s[..|s| - 1] + [s[|s| - 1]];
    }
  }

  /** The names of a comma-separated value, field by field and in order: blanks trimmed, empty ones
      left out. */
  lemma {:induction false} TrimmedFields(xs: seq<string>, ys: seq<string>, x: string)
    ensures Trimmed(xs + ys) == Trimmed(xs) + Trimmed(ys)
    ensures Trimmed([x]) == if Trim(x) == "" then [] else [Trim(x)]
  {
    assert [x][1..] == [] && Trimmed([]) == [];
    if xs == [] {
      assert xs + ys == ys;
    } else {
      var first := if Trim(xs[0]) == "" then [] else [Trim(xs[0])];
      assert (xs + ys)[1..] == xs[1..] + ys;
      assert Trimmed(xs + ys) == first + Trimmed(xs[1..] + ys) && Trimmed(xs) == first + Trimmed(xs[1..]);
      hide *;
      TrimmedFields(xs[1..], ys, x);
      Regroup(first, Trimmed(xs[1..]), Trimmed(ys));
    }
  }

  /** Joining the fields of a text gives it back. */
  lemma {:induction false} JoinFields(s: string)
    ensures Join(Fields(s)) == s
  {
    if s != "" {
      var rest := Fields(s[1..]);
      JoinFields(s[1..]);
      assert s == [s[0]] + s[1..];
      if s[0] == ',' {
        assert ([""] + rest)[1..] == rest;
      } else {
        var fields := [[s[0]] + rest[0]] + rest[1..];
        assert fields[1..] == rest[1..];
        if |rest| > 1 { assert [s[0]] + rest[0] + "," + Join(rest[1..]) == [s[0]] + (rest[0] + "," + Join(rest[1..])); }
      }
    }
  }

  lemma {:induction false} NamesTrimmed(b: Blocks)
    ensures b.Joined? ==> forall n | n in Names(b) :: n != "" && Trim(n) == n
  {
    if b.Joined? {
      forall n | n in Names(b) ensures n != "" && Trim(n) == n {
        InTrimmed(Fields(b.text), n);
        var x :| x in Fields(b.text) && Trim(x) == n;
        TrimTight(x);
        TrimTight(n);
      }
    }
  }

  // ---------- normalising twice ----------

  /** The rest of a name carries the prefix again. */
  predicate Doubled(trims: bool, name: string, prefix: string) {
    prefix <= name && prefix <= Rest(trims, name, prefix)
  }

  function Total(xs: seq<string>): nat { if xs == [] then 0 else |xs[0]| + Total(xs[1..]) }

  lemma {:induction false} TrimmedShorter(xs: seq<string>)
    ensures Total(Trimmed(xs)) <= Total(xs)
  {
    if xs != [] {
      TrimTight(xs[0]);
      TrimmedShorter(xs[1..]);
      var first := if Trim(xs[0]) == "" then [] else [Trim(xs[0])];
      assert (first + Trimmed(xs[1..]))[|first|..] == Trimmed(xs[1..]);
    }
  }

  lemma {:induction false} SameCons(x: string, xs: seq<string>, y: string, ys: seq<string>)
    ensures [x] + xs == [y] + ys <==> x == y && xs == ys
  {
    assert ([x] + xs)[0] == x && ([x] + xs)[1..] == xs;
    assert ([y] + ys)[0] == y && ([y] + ys)[1..] == ys;
  }

  lemma {:induction false} StripAllSame(xs: seq<string>, prefix: string)
    requires prefix != ""
    ensures StripAll(xs, prefix) == xs <==> forall n | n in xs :: !(prefix <= n)
  {
    var after := StripAll(xs, prefix);
    if after == xs {
      forall n | n in xs ensures !(prefix <= n) {
        var k :| 0 <= k < |xs| && xs[k] == n;
        assert after[k] == n;
      }
    }
    if forall n | n in xs :: !(prefix <= n) {
      forall k | 0 <= k < |xs| ensures after[k] == xs[k] { assert xs[k] in xs; }
    }
  }

  lemma {:induction false} StrippedShorter(xs: seq<string>, prefix: string)
    ensures Total(StripAll(xs, prefix)) <= Total(xs)
    ensures StripAll(xs, prefix) != xs ==> Total(StripAll(xs, prefix)) < Total(xs)
  {
    if xs != [] {
      var rest := xs[1..];
      StrippedShorter(rest, prefix);
      var first := StripBlock(xs[0], prefix);
      assert |first| <= |xs[0]| && (first != xs[0] ==> |first| < |xs[0]|);
      var after := [first] + StripAll(rest, prefix);
      assert StripAll(xs, prefix) == after;
      assert after[1..] == StripAll(rest, prefix) && Total(after) == |first| + Total(StripAll(rest, prefix));
      assert Total(xs) == |xs[0]| + Total(rest);
      hide *;
      assert xs == [xs[0]] + rest;
      SameCons(first, StripAll(rest, prefix), xs[0], rest);
    }
  }

  /** A value is left as it is exactly when none of its names carries the prefix. */
  lemma {:induction false} UnchangedIff(b: Blocks, prefix: string)
    requires prefix != ""
    ensures NormalBlocks(b, prefix) == b <==> forall n | n in Names(b) :: !(prefix <= n)
  {
    var names := Names(b);
    StripAllSame(names, prefix);
    StrippedShorter(names, prefix);
    if b.Joined? && StripAll(names, prefix) != names {
      NormalNames(b, prefix);
      TrimmedShorter(StripAll(names, prefix));
      assert Names(NormalBlocks(b, prefix)) != names;
    }
  }

  /** A second normalisation changes nothing exactly when no name carries the prefix again once it
      has lost it: in a list, when no entry starts with the prefix twice; in the comma-separated
      form, also when blanks stand between the two. */
  lemma {:induction false} StableIffNotDoubled(b: Blocks, prefix: string)
    requires prefix != ""
    ensures NormalBlocks(NormalBlocks(b, prefix), prefix) == NormalBlocks(b, prefix) <==>
      forall n | n in Names(b) :: !Doubled(b.Joined?, n, prefix)
  {
    UnchangedIff(NormalBlocks(b, prefix), prefix);
    hide *;
    if m :| m in Names(NormalBlocks(b, prefix)) && prefix <= m {
      assert m != "";
      LocalNames(b, prefix, m);
      var e :| e in Names(b) && prefix <= e && Rest(b.Joined?, e, prefix) == m;
      DoubledMeans(b.Joined?, e, prefix);
    }
    if e :| e in Names(b) && Doubled(b.Joined?, e, prefix) {
      DoubledMeans(b.Joined?, e, prefix);
      LocalNames(b, prefix, Rest(b.Joined?, e, prefix));
    }
  }

  lemma {:induction false} DoubledMeans(trims: bool, name: string, prefix: string)
    requires prefix != ""
    ensures Doubled(trims, name, prefix) <==> prefix <= name && prefix <= Rest(trims, name, prefix)
    ensures Doubled(trims, name, prefix) ==> Rest(trims, name, prefix) != ""
    ensures Doubled(false, name, prefix) <==> prefix + prefix <= name
  {
    if prefix <= name {
      var rest := name[|prefix|..];
      assert name == prefix + rest;
      if prefix <= rest {
        assert rest == prefix + rest[|prefix|..];
        assert name == (prefix + prefix) + rest[|prefix|..];
      }
      if prefix + prefix <= name {
        assert name == prefix + prefix + name[2 * |prefix|..];
        assert rest == prefix + name[2 * |prefix|..];
      }
    }
  }

  /** A blank between two prefixes, as in "t. t.x", hides the second from the first pass only. */
  lemma {:induction false} BlankHidesAPrefix(prefix: string, bare: string)
    requires prefix != "" && bare != "" && CommaFree(prefix) && CommaFree(bare) && Tight(prefix) && Tight(bare)
    ensures var b := Joined(prefix + " " + prefix + bare);
      && (forall n | n in Names(b) :: !(prefix + prefix <= n))
      && NormalBlocks(b, prefix) == Joined(" " + prefix + bare)
      && NormalBlocks(NormalBlocks(b, prefix), prefix) == Joined(bare)
  {
    hide *;
    var trimmed := prefix + bare;
    var rest := " " + trimmed;
    var all := prefix + rest;
    Spaced(prefix, bare);
    OneName(all, all);
    OneName(rest, trimmed);
    TwoPasses(all, rest, trimmed, bare, prefix);
    assert all == prefix + " " + prefix + bare && rest == " " + prefix + bare;
  }

  lemma {:induction false} Spaced(prefix: string, bare: string)
    requires prefix != "" && bare != "" && CommaFree(prefix) && CommaFree(bare) && Tight(prefix) && Tight(bare)
    ensures var trimmed := prefix + bare;
      && CommaFree(" " + trimmed) && TrimLeft(" " + trimmed) == trimmed && Tight(trimmed)
    ensures var all := prefix + (" " + (prefix + bare));
      CommaFree(all) && TrimLeft(all) == all && Tight(all) && !(prefix + prefix <= all)
  {
    var trimmed := prefix + bare;
    var rest := " " + trimmed;
    PlainAndTight(prefix, bare, bare);
    assert TrimLeft(rest) == TrimLeft(trimmed) by { assert rest[1..] == trimmed; }
    hide TrimLeft;
    PlainAndTight(prefix, rest, bare);
    assert (prefix + rest)[|prefix|] == ' ' && (prefix + prefix)[|prefix|] == prefix[0];
  }

  lemma {:induction false} TwoPasses(all: string, rest: string, trimmed: string, bare: string, prefix: string)
    requires prefix != "" && SplitBlocks(all) == [all] && SplitBlocks(rest) == [trimmed]
    requires all == prefix + rest && trimmed == prefix + bare
    ensures Names(Joined(all)) == [all]
    ensures NormalBlocks(Joined(all), prefix) == Joined(rest) && NormalBlocks(Joined(rest), prefix) == Joined(bare)
  {
    OneStripped(all, rest, prefix);
    OneStripped(trimmed, bare, prefix);
    hide SplitBlocks, StripAll, Join;
  }

  lemma {:induction false} PlainAndTight(prefix: string, rest: string, end: string)
    requires prefix != "" && end != "" && |end| <= |rest| && rest[|rest| - |end|..] == end
    requires Tight(prefix) && Tight(end) && CommaFree(prefix) && CommaFree(rest)
    ensures CommaFree(prefix + rest) && Tight(prefix + rest) && TrimLeft(prefix + rest) == prefix + rest
  {
    assert (prefix + rest)[|prefix + rest| - 1] == end[|end| - 1];
  }

  lemma {:induction false} OneStripped(name: string, rest: string, prefix: string)
    requires prefix != "" && name == prefix + rest
    ensures StripAll([name], prefix) == [rest] && Join([rest]) == rest && [rest] != [name]
  {
    assert [rest][0] != [name][0];
  }

  lemma {:induction false} OneName(text: string, name: string)
    requires CommaFree(text) && TrimLeft(text) == name && name != "" && Tight(name)
    ensures SplitBlocks(text) == [name]
  {
    FieldsOfPlain(text);
    TrimRightEnd(name);
    assert Trimmed([text]) == [name] + Trimmed([text][1..]);
  }

  // ---------- regular-expression keys ----------

  const WILDCARD := ".*"

  /** Regex-escaped form of a prefix: every dot gets a backslash. */
  function Escaped(prefix: string): string {
    if prefix == "" then ""
    else (if prefix[0] == '.' then "\\." else [prefix[0]]) + Escaped(prefix[1..])
  }

  function StripKey(pattern: string, prefix: string): string {
    var escaped := Escaped(prefix);
    if escaped <= pattern then pattern[|escaped|..]
    else if prefix <= pattern then pattern[|prefix|..]
    else if WILDCARD + escaped <= pattern then WILDCARD + pattern[|WILDCARD + escaped|..]
    else pattern
  }

  lemma {:induction false} EscapedConcat(a: string, b: string)
    ensures Escaped(a + b) == Escaped(a) + Escaped(b)
  {
    if a == "" {
      assert a + b == b;
    } else {
      assert (a + b)[1..] == a[1..] + b;
      EscapedConcat(a[1..], b);
    }
  }

  lemma {:induction false} EscapedPlain(a: string)
    requires '.' !in a
    ensures Escaped(a) == a
  {
    if a != "" {
      EscapedPlain(a[1..]);
      assert a == [a[0]] + a[1..];
    }
  }

  lemma {:induction false} EscapedStem(stem: string)
    requires '.' !in stem
    ensures Escaped(stem + ".") == stem + "\\."
  {
    EscapedConcat(stem, ".");
    EscapedPlain(stem);
    assert Escaped(".") == "\\." + Escaped("") == "\\.";
  }

  /** A key loses the prefix "stem." from its front, written plainly or with the dot escaped, and
      from behind a leading wildcard when escaped; any other key stays as it is. */
  lemma {:induction false} StripKeyShapes(stem: string, rest: string, key: string)
    requires stem != "" && '.' !in stem
    ensures StripKey(stem + "\\." + rest, stem + ".") == rest
    ensures StripKey(stem + "." + rest, stem + ".") == rest
    ensures StripKey(".*" + stem + "\\." + rest, stem + ".") == ".*" + rest
    ensures !(stem + "\\." <= key) && !(stem + "." <= key) && !(".*" + stem + "\\." <= key) ==>
      StripKey(key, stem + ".") == key
  {
    var prefix, escaped := stem + ".", stem + "\\.";
    EscapedStem(stem);
    hide Escaped;
    var plainKey, escapedKey, wildKey := prefix + rest, escaped + rest, ".*" + escaped + rest;
    assert ".*" + stem + "\\." + rest == wildKey && ".*" + stem + "\\." == WILDCARD + escaped;
    assert plainKey[|prefix|..] == rest && escapedKey[|escaped|..] == rest;
    assert plainKey[|stem|] == '.' && escaped[|stem|] == '\\';
    assert wildKey[0] == '.' && prefix[0] == stem[0] != '.' && escaped[0] == stem[0];
    assert wildKey[|WILDCARD + escaped|..] == rest && WILDCARD + escaped <= wildKey;
  }

  /** dict[key] = value: the first occurrence keeps its place. */
  function Put(d: seq<Entry>, key: string, value: int): seq<Entry> {
    if d == [] then [Entry(key, value)]
    else if d[0].key == key then [Entry(key, value)] + d[1..]
    else [d[0]] + Put(d[1..], key, value)
  }

  function Renamed(extra: seq<Entry>, prefix: string): seq<Entry> {
    if extra == [] then [] else
      var last := extra[|extra| - 1];
      Put(Renamed(extra[..|extra| - 1], prefix), StripKey(last.key, prefix), last.value)
  }

  ghost predicate KeyChanges(extra: seq<Entry>, prefix: string) {
    exists k :: 0 <= k < |extra| && StripKey(extra[k].key, prefix) != extra[k].key
  }

  function Get(d: seq<Entry>, key: string): seq<int> {
    if d == [] then [] else if d[0].key == key then [d[0].value] else Get(d[1..], key)
  }

  /** The value of the last entry whose key becomes `key`. */
  function LastFor(extra: seq<Entry>, prefix: string, key: string): seq<int> {
    if extra == [] then []
    else if StripKey(extra[|extra| - 1].key, prefix) == key then [extra[|extra| - 1].value]
    else LastFor(extra[..|extra| - 1], prefix, key)
  }

  lemma {:induction false} PutGet(d: seq<Entry>, key: string, value: int, other: string)
    ensures Get(Put(d, key, value), other) == if other == key then [value] else Get(d, other)
  {
    if d != [] && d[0].key != key { PutGet(d[1..], key, value, other); }
  }

  /** The renamed dict maps each stripped key to the value of the last key that strips to it. */
  lemma {:induction false} RenamedLookup(extra: seq<Entry>, prefix: string, key: string)
    ensures Get(Renamed(extra, prefix), key) == LastFor(extra, prefix, key)
  {
    if extra != [] {
      var front, last := extra[..|extra| - 1], extra[|extra| - 1];
      RenamedLookup(front, prefix, key);
      PutGet(Renamed(front, prefix), StripKey(last.key, prefix), last.value, key);
    }
  }

  // ---------- renaming keys twice ----------

  /** The three shapes in which a key carries the prefix. */
  predicate Carries(key: string, prefix: string) {
    Escaped(prefix) <= key || prefix <= key || WILDCARD + Escaped(prefix) <= key
  }

  /** The key carries the prefix again, in whatever shape, once it has lost it. */
  predicate KeyDoubled(key: string, prefix: string) {
    var escaped := Escaped(prefix);
    if escaped <= key then Carries(key[|escaped|..], prefix)
    else if prefix <= key then Carries(key[|prefix|..], prefix)
    else WILDCARD + escaped <= key && Carries(WILDCARD + key[|WILDCARD + escaped|..], prefix)
  }

  lemma {:induction false} StripKeyShortens(key: string, prefix: string)
    requires prefix != ""
    ensures if Carries(key, prefix) then |StripKey(key, prefix)| < |key| else StripKey(key, prefix) == key
    ensures KeyDoubled(key, prefix) <==> Carries(key, prefix) && Carries(StripKey(key, prefix), prefix)
  {
    assert Escaped(prefix) != "";
  }

  ghost predicate HasKey(d: seq<Entry>, key: string) { exists k :: 0 <= k < |d| && d[k].key == key }

  lemma {:induction false} PutKeys(d: seq<Entry>, key: string, value: int, other: string)
    ensures HasKey(Put(d, key, value), other) <==> HasKey(d, other) || other == key
  {
    if d == [] {
      assert Put(d, key, value)[0].key == key;
    } else {
      HasKeyFirst(d, other);
      HasKeyFirst(Put(d, key, value), other);
      if d[0].key == key {
        assert Put(d, key, value)[1..] == d[1..];
      } else {
        assert Put(d, key, value)[1..] == Put(d[1..], key, value);
        PutKeys(d[1..], key, value, other);
      }
    }
  }

  lemma {:induction false} HasKeyFirst(d: seq<Entry>, key: string)
    requires d != []
    ensures HasKey(d, key) <==> d[0].key == key || HasKey(d[1..], key)
  {
    if HasKey(d, key) {
      var k :| 0 <= k < |d| && d[k].key == key;
      assert k > 0 ==> d[1..][k - 1].key == key;
    }
    if HasKey(d[1..], key) {
      var k :| 0 <= k < |d| - 1 && d[1..][k].key == key;
      assert d[k + 1].key == key;
    }
  }

  /** The keys afterwards are the stripped keys. */
  lemma {:induction false} RenamedKeys(extra: seq<Entry>, prefix: string, key: string)
    ensures HasKey(Renamed(extra, prefix), key) <==>
      exists k :: 0 <= k < |extra| && StripKey(extra[k].key, prefix) == key
  {
    if extra != [] {
      var front, last := extra[..|extra| - 1], extra[|extra| - 1];
      RenamedKeys(front, prefix, key);
      PutKeys(Renamed(front, prefix), StripKey(last.key, prefix), last.value, key);
      hide Renamed, StripKey, HasKey, Put;
      assert forall k | 0 <= k < |front| :: front[k] == extra[k];
    }
  }

  function KeyTotal(d: seq<Entry>): nat { if d == [] then 0 else KeyTotal(d[..|d| - 1]) + |d[|d| - 1].key| }

  lemma {:induction false} KeyTotalFirst(d: seq<Entry>)
    requires d != []
    ensures KeyTotal(d) == |d[0].key| + KeyTotal(d[1..])
  {
    if |d| > 1 {
      KeyTotalFirst(d[..|d| - 1]);
      assert d[..|d| - 1][1..] == d[1..][..|d| - 2];
    }
  }

  lemma {:induction false} PutTotal(d: seq<Entry>, key: string, value: int)
    ensures KeyTotal(Put(d, key, value)) <= KeyTotal(d) + |key|
  {
    KeyTotalFirst(Put(d, key, value));
    if d != [] {
      KeyTotalFirst(d);
      if d[0].key != key { PutTotal(d[1..], key, value); }
    }
  }

  lemma {:induction false} RenamedShorter(extra: seq<Entry>, prefix: string)
    requires prefix != ""
    ensures KeyTotal(Renamed(extra, prefix)) <= KeyTotal(extra)
    ensures KeyChanges(extra, prefix) ==> KeyTotal(Renamed(extra, prefix)) < KeyTotal(extra)
  {
    if extra != [] {
      var front, last := extra[..|extra| - 1], extra[|extra| - 1];
      RenamedShorter(front, prefix);
      PutTotal(Renamed(front, prefix), StripKey(last.key, prefix), last.value);
      StripKeyShortens(last.key, prefix);
      assert Renamed(extra, prefix) == Put(Renamed(front, prefix), StripKey(last.key, prefix), last.value);
      KeyChangesLast(extra, prefix);
      assert KeyTotal(extra) == KeyTotal(front) + |last.key|;
      hide *;
    }
  }

  lemma {:induction false} KeyChangesLast(extra: seq<Entry>, prefix: string)
    requires extra != []
    ensures KeyChanges(extra, prefix) ==>
      KeyChanges(extra[..|extra| - 1], prefix) || StripKey(extra[|extra| - 1].key, prefix) != extra[|extra| - 1].key
  {
    hide StripKey;
    assert forall k | 0 <= k < |extra| - 1 :: extra[..|extra| - 1][k] == extra[k];
  }

  /** The extra config after normalisation. */
  ghost function NormalExtra(extra: seq<Entry>, prefix: string): seq<Entry> {
    if KeyChanges(extra, prefix) then Renamed(extra, prefix) else extra
  }

  lemma {:induction false} SameKeysIff(extra: seq<Entry>, prefix: string)
    requires prefix != ""
    ensures NormalExtra(extra, prefix) == extra <==> !KeyChanges(extra, prefix)
    ensures KeyChanges(extra, prefix) <==> exists k :: 0 <= k < |extra| && Carries(extra[k].key, prefix)
  {
    RenamedShorter(extra, prefix);
    forall k | 0 <= k < |extra| ensures StripKey(extra[k].key, prefix) != extra[k].key <==> Carries(extra[k].key, prefix) {
      StripKeyShortens(extra[k].key, prefix);
    }
  }

  /** Renaming the keys a second time changes nothing exactly when no key carries the prefix again
      once it has lost it. */
  lemma {:induction false} KeysStableIff(extra: seq<Entry>, prefix: string)
    requires prefix != ""
    ensures NormalExtra(NormalExtra(extra, prefix), prefix) == NormalExtra(extra, prefix) <==>
      forall k | 0 <= k < |extra| :: !KeyDoubled(extra[k].key, prefix)
  {
    var once := NormalExtra(extra, prefix);
    SameKeysIff(extra, prefix);
    SameKeysIff(once, prefix);
    hide Carries, KeyDoubled, StripKey, Renamed;
    if KeyChanges(extra, prefix) {
      if j :| 0 <= j < |once| && Carries(once[j].key, prefix) {
        RenamedKeys(extra, prefix, once[j].key);
        assert HasKey(once, once[j].key);
        var k :| 0 <= k < |extra| && StripKey(extra[k].key, prefix) == once[j].key;
        StripKeyShortens(extra[k].key, prefix);
        assert KeyDoubled(extra[k].key, prefix);
      }
      if k :| 0 <= k < |extra| && KeyDoubled(extra[k].key, prefix) {
        StripKeyShortens(extra[k].key, prefix);
        RenamedKeys(extra, prefix, StripKey(extra[k].key, prefix));
        var j :| 0 <= j < |once| && once[j].key == StripKey(extra[k].key, prefix);
      }
    } else {
      forall k | 0 <= k < |extra| ensures !KeyDoubled(extra[k].key, prefix) { StripKeyShortens(extra[k].key, prefix); }
    }
  }

  /** The content after normalisation. */
  ghost function Normal(c: Content, prefix: string): Content {
    Content(NormalBlocks(c.blocks, prefix), NormalExtra(c.extra, prefix))
  }

  /** Normalising twice is the same as once exactly when no block name and no key carries the prefix
      again once it has lost it. */
  lemma {:induction false} TwiceIsOnceIff(c: Content, prefix: string)
    requires prefix != ""
    ensures Normal(Normal(c, prefix), prefix) == Normal(c, prefix) <==>
      && (forall n | n in Names(c.blocks) :: !Doubled(c.blocks.Joined?, n, prefix))
      && forall k | 0 <= k < |c.extra| :: !KeyDoubled(c.extra[k].key, prefix)
  {
    StableIffNotDoubled(c.blocks, prefix);
    KeysStableIff(c.extra, prefix);
    hide NormalBlocks, NormalExtra, Names, Doubled, KeyDoubled;
  }
}
