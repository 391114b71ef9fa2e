/** parse_str_to_list of subseq/HelperFunctions.py: the splitter that turns
    the text of a list argument ("['A', 'B']", "A,B") into its items. */
module HelperFunctions {
  import opened Text

  /** The characters of the regex class [A-Za-z0-9_]. */
  predicate IsWordChar(c: char) {
    'A' <= c <= 'Z' || 'a' <= c <= 'z' || '0' <= c <= '9' || c == '_'
  }

  /** Length of the leading run of word characters. */
  function WordRunLength(s: string): (k: nat)
    ensures k <= |s|
    ensures s != [] && IsWordChar(s[0]) ==> k > 0
  {
    if s == [] || !IsWordChar(s[0]) then 0 else 1 + WordRunLength(s[1..])
  }

  /** re.sub('([A-Za-z0-9_]+)', r'\1', s): every maximal run of word characters
      is replaced by the group it matched, other characters are copied. */
  function SubWordRuns(s: string): string
    decreases |s|
  {
    if s == [] then []
    else if IsWordChar(s[0]) then
      var k := WordRunLength(s);
      s[..k] + SubWordRuns(s[k..])
    else [s[0]] + SubWordRuns(s[1..])
  }

  /** The first substitution changes nothing. */
  lemma {:induction false} SubWordRunsIdentity(s: string)
    ensures SubWordRuns(s) == s
    decreases |s|
  {
    if s != [] {
      if IsWordChar(s[0]) {
        var k := WordRunLength(s);
        SubWordRunsIdentity(s[k..]);
        assert s[..k] + s[k..] == s;
      } else {
        SubWordRunsIdentity(s[1..]);
      }
    }
  }

  /** The characters the second substitution deletes: brackets, quotes and
      whitespace. */
  const Removed: set<char> := {'[', ']', '\'', '"'} + Whitespace

  /** parse_str_to_list(string) */
  function ParseStrToList(s: string): seq<string> {
    SplitOn(RemoveChars(SubWordRuns(s), Removed), ',')
  }

  /** The items hold neither commas nor removed characters, there is one more
      item than there are commas (so "" gives [""]), and joining the items with
      commas gives the input with the removed characters deleted. */
  lemma ParseStrToListSpec(s: string)
    ensures |ParseStrToList(s)| == Count(s, ',') + 1
    ensures Join(ParseStrToList(s), ',') == RemoveChars(s, Removed)
    ensures forall k :: 0 <= k < |ParseStrToList(s)| ==> ',' !in ParseStrToList(s)[k]
    ensures forall k, c :: 0 <= k < |ParseStrToList(s)| && c in ParseStrToList(s)[k] ==> c !in Removed
  {
    SubWordRunsIdentity(s);
    var raw := RemoveChars(s, Removed);
    var items := SplitOn(raw, ',');
    assert ParseStrToList(s) == items;
    SplitOnJoin(raw, ',');
    assert |items| == Count(s, ',') + 1 by {
      CountRemoveChars(s, Removed, ',');
    }
    forall k, c | 0 <= k < |items| && c in items[k] ensures c !in Removed {
      SplitOnChars(raw, ',');
      assert c in raw;
    }
  }
}
