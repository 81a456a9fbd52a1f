/** Tags as the pages handle them: the server's tag groups flattened into
    choices, the wire form of a chosen list, and the candidate lists shown
    while searching for a tag. */
module Tags {
  import Text
  import Seqs
  import Utils

  /** One choosable tag: a group name, one of its values and the group colour. */
  datatype TagChoice = TagChoice(name: string, value: string, color: string)

  /** A tag group as the server sends it: a name, its values and a colour. */
  datatype CustomTag = CustomTag(name: string, value: seq<string>, color: string)

  /** `customTag.value.map((v) => new TagChoice(customTag.name, v, customTag.color))` */
  function GroupChoices(group: CustomTag): seq<TagChoice>
  {
    seq(|group.value|, j requires 0 <= j < |group.value| => TagChoice(group.name, group.value[j], group.color))
  }

  /** `customTagList.map(...)`: one row of choices per group. */
  function ChoiceRows(groups: seq<CustomTag>): seq<seq<TagChoice>>
  {
    seq(|groups|, i requires 0 <= i < |groups| => GroupChoices(groups[i]))
  }

  /** The number of values of all the groups. */
  function ValueCount(groups: seq<CustomTag>): nat
  {
    if groups == [] then 0 else ValueCount(groups[..|groups| - 1]) + |groups[|groups| - 1].value|
  }

  /** The flattening in `getSchematicUploadTag`: the groups are mapped to rows
      of choices, and each row is pushed in turn into the result, exactly as
      `array2dToArray1d` does. */
  method FlattenTagGroups(customTagList: seq<CustomTag>) returns (tagChoiceList: seq<TagChoice>)
    ensures tagChoiceList == Utils.Flatten(ChoiceRows(customTagList))
  {
    var temp := ChoiceRows(customTagList);
    tagChoiceList := Utils.Array2dToArray1d(temp);
  }

  lemma {:induction false} ValueCountIsRowLengths(groups: seq<CustomTag>)
    ensures Utils.SumLengths(ChoiceRows(groups)) == ValueCount(groups)
  {
    if groups != [] {
      var n := |groups| - 1;
      assert ChoiceRows(groups)[..n] == ChoiceRows(groups[..n]);
      ValueCountIsRowLengths(groups[..n]);
    }
  }

  /** There is one choice per (group, value) pair: value `j` of group `i`
      lands after the values of all earlier groups, carrying the group's name
      and colour. */
  lemma TagChoicePlacement(groups: seq<CustomTag>, i: nat, j: nat)
    requires i < |groups| && j < |groups[i].value|
    ensures |Utils.Flatten(ChoiceRows(groups))| == ValueCount(groups)
    ensures ValueCount(groups[..i]) + j < ValueCount(groups)
    ensures Utils.Flatten(ChoiceRows(groups))[ValueCount(groups[..i]) + j]
            == TagChoice(groups[i].name, groups[i].value[j], groups[i].color)
  {
    var rows := ChoiceRows(groups);
    Utils.FlattenLength(rows);
    ValueCountIsRowLengths(groups);
    Utils.FlattenAt(rows, i, j);
    assert rows[..i] == ChoiceRows(groups[..i]);
    ValueCountIsRowLengths(groups[..i]);
  }

  /** `${t.name}:${t.value}` */
  function Render(t: TagChoice): string
  {
    t.name + ":" + t.value
  }

  /** `tags.map((t) => `${t.name}:${t.value}`).join()`: the default separator
      of `Array.prototype.join` is a comma. */
  function TagString(tags: seq<TagChoice>): (wire: string)
    ensures wire == "" <==> tags == []
    ensures |tags| > 0 ==> Render(tags[0]) <= wire
  {
    Text.Join(seq(|tags|, i requires 0 <= i < |tags| => Render(tags[i])), ',')
  }

  /** How a receiver reads the tags field back: split at commas, then each
      entry at its first colon. */
  function ParseTagString(s: string): seq<(string, string)>
  {
    var entries := Text.Split(s, ',');
    seq(|entries|, i requires 0 <= i < |entries| => Text.SplitFirst(entries[i], ':'))
  }

  /** Names and values that the wire form can carry unambiguously. */
  predicate WireSafe(t: TagChoice)
  {
    ':' !in t.name && ',' !in t.name && ',' !in t.value
  }

  /** The tags field lists every chosen tag as `name:value`, in list order:
      reading it back gives the (name, value) pairs of the list. The empty list
      is excluded because it becomes `""`, which reads back as one empty entry. */
  lemma TagStringRoundTrip(tags: seq<TagChoice>)
    requires |tags| >= 1
    requires forall t :: t in tags ==> WireSafe(t)
    ensures ParseTagString(TagString(tags)) == seq(|tags|, i requires 0 <= i < |tags| => (tags[i].name, tags[i].value))
  {
    var rendered := seq(|tags|, i requires 0 <= i < |tags| => Render(tags[i]));
    forall p | p in rendered
      ensures ',' !in p
    {
      var i :| 0 <= i < |tags| && p == rendered[i];
      assert tags[i] in tags;
    }
    Text.SplitJoin(rendered, ',');
    forall i | 0 <= i < |tags|
      ensures Text.SplitFirst(rendered[i], ':') == (tags[i].name, tags[i].value)
    {
      assert tags[i] in tags;
      Text.SplitFirstAt(tags[i].name, ':', tags[i].value);
    }
  }

  /** The search box of the verification panel: tags whose name or value
      contains the query (chosen tags are not excluded there). */
  function PanelCandidates(all: seq<TagChoice>, query: string): (r: seq<TagChoice>)
    ensures forall t :: t in r <==> t in all && (Text.Includes(t.name, query) || Text.Includes(t.value, query))
  {
    var keep := (t: TagChoice) => Text.Includes(t.name, query) || Text.Includes(t.value, query);
    Seqs.FilterMembers(keep, all);
    Seqs.Filter(keep, all)
  }

  /** The search box of the upload page: tags whose name or value contains the
      query and that are not chosen yet. */
  function UploadCandidates(all: seq<TagChoice>, chosen: seq<TagChoice>, query: string): (r: seq<TagChoice>)
    ensures forall t :: t in r <==> t in all && (Text.Includes(t.name, query) || Text.Includes(t.value, query)) && t !in chosen
  {
    var keep := (t: TagChoice) => (Text.Includes(t.name, query) || Text.Includes(t.value, query)) && t !in chosen;
    Seqs.FilterMembers(keep, all);
    Seqs.Filter(keep, all)
  }

  /** With an empty query the upload search box offers every tag not yet
      chosen, in the order of the full list. */
  lemma UploadCandidatesEmptyQuery(all: seq<TagChoice>, chosen: seq<TagChoice>)
    ensures UploadCandidates(all, chosen, "") == Seqs.Filter((t: TagChoice) => t !in chosen, all)
  {
    forall t | t in all
      ensures Text.Includes(t.name, "")
    {
      Text.IncludesEmpty(t.name);
    }
    Seqs.FilterCongruent((t: TagChoice) => (Text.Includes(t.name, "") || Text.Includes(t.value, "")) && t !in chosen,
                         (t: TagChoice) => t !in chosen, all);
  }

  /** The search box of the post verification panel: tags whose display
      string, lowered, contains the lowered query and that are not chosen yet.
      `display` stands for `toDisplayString`, which is not part of this model. */
  function PostCandidates(all: seq<TagChoice>, chosen: seq<TagChoice>, query: string, display: TagChoice -> string): (r: seq<TagChoice>)
    ensures forall t :: t in r <==> t in all && Text.Includes(Text.ToLower(display(t)), Text.ToLower(query)) && t !in chosen
  {
    var keep := (t: TagChoice) => Text.Includes(Text.ToLower(display(t)), Text.ToLower(query)) && t !in chosen;
    Seqs.FilterMembers(keep, all);
    Seqs.Filter(keep, all)
  }

  /** The post search is case-insensitive in the query: lowering the query
      first changes nothing. */
  lemma PostCandidatesIgnoreQueryCase(all: seq<TagChoice>, chosen: seq<TagChoice>, query: string, display: TagChoice -> string)
    ensures PostCandidates(all, chosen, Text.ToLower(query), display) == PostCandidates(all, chosen, query, display)
  {
    Text.ToLowerIdempotent(query);
    Seqs.FilterCongruent(
      (t: TagChoice) => Text.Includes(Text.ToLower(display(t)), Text.ToLower(Text.ToLower(query))) && t !in chosen,
      (t: TagChoice) => Text.Includes(Text.ToLower(display(t)), Text.ToLower(query)) && t !in chosen, all);
  }
}
