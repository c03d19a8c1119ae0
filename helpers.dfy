// `fuzzy_match` from the CLI helpers: keep the entries whose name contains a
// match for the user's pattern, in their original order. The compiled regular
// expression is a parameter: `search(pattern, name)` says whether
// `regex.compile(pattern).search(name)` finds a match.

/** The entries whose name `keep` accepts, in their original order. */
function NameFilter<T(==)>(keep: string -> bool, entries: seq<T>, nameOf: T ~> string): (r: seq<T>)
  requires forall e | e in entries :: nameOf.requires(e)
  reads set e, o | e in entries && o in nameOf.reads(e) :: o
  ensures |r| <= |entries|
  ensures entries == [] ==> r == []
{
  if entries == [] then []
  else
    var rest := NameFilter(keep, entries[1..], nameOf);
    if keep(nameOf(entries[0])) then [entries[0]] + rest else rest
}

/** Every entry the filter returns has an accepted name and comes from the input. */
lemma {:induction false} NameFilterSound<T>(keep: string -> bool, entries: seq<T>, nameOf: T ~> string)
  requires forall e | e in entries :: nameOf.requires(e)
  ensures forall e | e in NameFilter(keep, entries, nameOf) :: e in entries && keep(nameOf(e))
{
  if entries != [] {
    NameFilterSound(keep, entries[1..], nameOf);
  }
}

/** Every input entry with an accepted name is returned. */
lemma {:induction false} NameFilterComplete<T>(keep: string -> bool, entries: seq<T>, nameOf: T ~> string)
  requires forall e | e in entries :: nameOf.requires(e)
  ensures forall e | e in entries && keep(nameOf(e)) :: e in NameFilter(keep, entries, nameOf)
{
  if entries != [] {
    NameFilterComplete(keep, entries[1..], nameOf);
    forall e | e in entries && keep(nameOf(e)) ensures e in NameFilter(keep, entries, nameOf) {
      if e != entries[0] {
        assert e in entries[1..];
      }
    }
  }
}

/** The filter keeps the input order: its result is a subsequence of the input. */
lemma {:induction false} NameFilterIsSubsequence<T>(keep: string -> bool, entries: seq<T>, nameOf: T ~> string)
  requires forall e | e in entries :: nameOf.requires(e)
  ensures IsSubsequence(NameFilter(keep, entries, nameOf), entries)
{
  if entries != [] {
    NameFilterIsSubsequence(keep, entries[1..], nameOf);
    var r := NameFilter(keep, entries, nameOf);
    if keep(nameOf(entries[0])) {
      assert r[0] == entries[0] && r[1..] == NameFilter(keep, entries[1..], nameOf);
    } else if r != [] {
      assert IsSubsequence(r, entries[1..]);
    }
  }
}

/** Filtering one more entry appends it exactly when its name is accepted. */
lemma {:induction false} NameFilterAppend<T>(keep: string -> bool, entries: seq<T>, last: T, nameOf: T ~> string)
  requires forall e | e in entries + [last] :: nameOf.requires(e)
  ensures NameFilter(keep, entries + [last], nameOf)
       == NameFilter(keep, entries, nameOf) + (if keep(nameOf(last)) then [last] else [])
{
  if entries == [] {
    assert [last][1..] == [];
  } else {
    assert (entries + [last])[1..] == entries[1..] + [last];
    NameFilterAppend(keep, entries[1..], last, nameOf);
  }
}

/** `fuzzy_match(user_input, database)`: compile the pattern once, then walk the
    entries, reading only each entry's name and appending the matching entries. */
method FuzzyMatch<T(==)>(search: (string, string) -> bool, userInput: string, database: seq<T>, nameOf: T ~> string)
  returns (results: seq<T>)
  requires forall e | e in database :: nameOf.requires(e)
  ensures results == NameFilter(name => search(userInput, name), database, nameOf)
{
  var pattern := name => search(userInput, name);
  results := [];
  for i := 0 to |database|
    invariant results == NameFilter(pattern, database[..i], nameOf)
  {
    var entry := database[i];
    var name := nameOf(entry);
    NameFilterAppend(pattern, database[..i], entry, nameOf);
    assert database[..i + 1] == database[..i] + [entry];
    if pattern(name) {
      results := results + [entry];
    }
  }
  assert database[..|database|] == database;
}

/** Substring containment: what `search` is for a pattern free of regular
    expression metacharacters. */
predicate Contains(pattern: string, name: string)
  decreases |name|
{
  |pattern| <= |name| && (name[..|pattern|] == pattern || Contains(pattern, name[1..]))
}

/** A pattern is contained in any name that has it at some offset. */
lemma {:induction false} ContainsAt(pattern: string, name: string, offset: nat)
  requires offset + |pattern| <= |name| && name[offset..offset + |pattern|] == pattern
  ensures Contains(pattern, name)
{
  if offset > 0 && name[..|pattern|] != pattern {
    assert name[1..][offset - 1..offset - 1 + |pattern|] == name[offset..offset + |pattern|];
    ContainsAt(pattern, name[1..], offset - 1);
  }
}

/** A name the pattern is contained in has it at some offset. */
lemma {:induction false} ContainsHasOffset(pattern: string, name: string) returns (offset: nat)
  requires Contains(pattern, name)
  ensures offset + |pattern| <= |name| && name[offset..offset + |pattern|] == pattern
  decreases |name|
{
  if name[..|pattern|] == pattern {
    offset := 0;
  } else {
    var rest := ContainsHasOffset(pattern, name[1..]);
    assert name[1..][rest..rest + |pattern|] == name[rest + 1..rest + 1 + |pattern|];
    offset := rest + 1;
  }
}

/** The search for "an" over the hotel names "Sandy" and "Oak" returns "Sandy" alone. */
lemma FuzzyMatchExample()
  ensures NameFilter(name => Contains("an", name), ["Sandy", "Oak"], (s: string) => s) == ["Sandy"]
{
  ContainsAt("an", "Sandy", 1);
  assert !Contains("an", "k");
  assert "ak"[..2][1] != "an"[1];
  assert !Contains("an", "ak");
  assert !Contains("an", "Oak");
  assert ["Sandy", "Oak"][1..] == ["Oak"];
}
