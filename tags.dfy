/**
  Tag directives: a tag such as "name,omitempty,flatten" is split on commas; the
  first segment is the rename target and the rest are the options.
*/
module Tags {

  datatype Tag = Tag(name: string, options: seq<string>)

  /** strings.Split(s, ","): one segment more than there are commas, none of
      them holding a comma; the empty string gives one empty segment. */
  function Split(s: string): (r: seq<string>)
    ensures |r| >= 1
    ensures forall k :: 0 <= k < |r| ==> ',' !in r[k]
    decreases |s|
  {
    if s == [] then [""]
    else
      var rest := Split(s[1..]);
      if s[0] == ',' then [""] + rest
      else [[s[0]] + rest[0]] + rest[1..]
  }

  /** strings.Join(parts, ","). */
  function Join(parts: seq<string>): string
    requires |parts| >= 1
    decreases |parts|
  {
    if |parts| == 1 then parts[0] else parts[0] + "," + Join(parts[1..])
  }

  /** Splitting loses nothing: joining the segments gives the string back. */
  lemma {:induction false} JoinSplit(s: string)
    ensures Join(Split(s)) == s
    decreases |s|
  {
    if s != [] {
      var rest := Split(s[1..]);
      JoinSplit(s[1..]);
      if s[0] == ',' {
        assert Split(s) == [""] + rest;
        assert s == "," + s[1..];
      } else {
        var r := Split(s);
        assert r == [[s[0]] + rest[0]] + rest[1..];
        if |rest| == 1 {
          assert s == [s[0]] + s[1..];
        } else {
          assert r[1..] == rest[1..];
          assert Join(rest) == rest[0] + "," + Join(rest[1..]);
          assert s == [s[0]] + s[1..];
        }
      }
    }
  }

  /** A segment without commas is one segment. */
  lemma {:induction false} SplitNoComma(p: string)
    requires ',' !in p
    ensures Split(p) == [p]
    decreases |p|
  {
    if p != [] {
      assert ',' !in p[1..] by {
        forall k | 0 <= k < |p[1..]| ensures p[1..][k] != ',' { assert p[1..][k] == p[k + 1]; }
      }
      SplitNoComma(p[1..]);
      assert p == [p[0]] + p[1..];
    }
  }

  /** Splitting at a comma preceded by a comma-free segment. */
  lemma {:induction false} SplitAtComma(p: string, t: string)
    requires ',' !in p
    ensures Split(p + "," + t) == [p] + Split(t)
    decreases |p|
  {
    if p == [] {
      assert p + "," + t == "," + t;
      assert ("," + t)[1..] == t;
    } else {
      var s := p + "," + t;
      assert s[0] == p[0] && s[1..] == p[1..] + "," + t;
      assert ',' !in p[1..] by {
        forall k | 0 <= k < |p[1..]| ensures p[1..][k] != ',' { assert p[1..][k] == p[k + 1]; }
      }
      SplitAtComma(p[1..], t);
      assert p == [p[0]] + p[1..];
    }
  }

  /** Joining comma-free segments and splitting again gives the segments back. */
  lemma {:induction false} SplitJoin(parts: seq<string>)
    requires |parts| >= 1
    requires forall k :: 0 <= k < |parts| ==> ',' !in parts[k]
    ensures Split(Join(parts)) == parts
    decreases |parts|
  {
    if |parts| == 1 {
      SplitNoComma(parts[0]);
    } else {
      SplitJoin(parts[1..]);
      SplitAtComma(parts[0], Join(parts[1..]));
      assert parts == [parts[0]] + parts[1..];
    }
  }

  /** parseTag: the text before the first comma is the name, the segments after it
      are the options, in order and with empty segments kept. Joining name and
      options with commas gives the tag back. */
  function ParseTag(tag: string): (t: Tag)
    ensures Join([t.name] + t.options) == tag
    ensures ',' !in t.name
    ensures forall k :: 0 <= k < |t.options| ==> ',' !in t.options[k]
  {
    var res := Split(tag);
    JoinSplit(tag);
    assert [res[0]] + res[1..] == res;
    Tag(res[0], res[1..])
  }

  /** A tag without a comma is all name and carries no options; the empty tag
      gives the empty name. */
  lemma ParseTagNoComma(tag: string)
    requires ',' !in tag
    ensures ParseTag(tag) == Tag(tag, [])
  {
    SplitNoComma(tag);
  }

  /** With a comma at index c and none before it, the name is tag[..c] and the
      options are the segments of what follows the comma. */
  lemma ParseTagFirstComma(tag: string, c: nat)
    requires c < |tag| && tag[c] == ',' && ',' !in tag[..c]
    ensures ParseTag(tag) == Tag(tag[..c], Split(tag[c + 1..]))
  {
    assert tag == tag[..c] + "," + tag[c + 1..];
    SplitAtComma(tag[..c], tag[c + 1..]);
  }

  /** tagOptions.Has: a scan for an option equal to opt. */
  function Has(options: seq<string>, opt: string): (r: bool)
    ensures r <==> opt in options
    decreases |options|
  {
    if options == [] then false
    else if options[0] == opt then true
    else Has(options[1..], opt)
  }

  /** No option is set on a tag without a comma. */
  lemma NoCommaNoDirective(tag: string, opt: string)
    requires ',' !in tag
    ensures !Has(ParseTag(tag).options, opt)
  {
    ParseTagNoComma(tag);
  }
}
