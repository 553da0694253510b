/** The configuration and update documents of the SysAP, as the ElementTree
    calls of custom_components/freeathome/fah/pfreeathome.py see them: a tree
    of elements, each with a tag, attributes, optional text and children in
    document order. Parsing XML text is not part of this model. */
module ConfigXml {
  import opened Wrappers
  import opened PyValue

  datatype Node = Node(tag: string, attrs: map<string, string>, text: Option<string>, children: seq<Node>)

  /** element.get(name): None when the attribute is absent. */
  function Get(n: Node, name: string): (r: Option<string>)
    ensures r.Some? <==> name in n.attrs
  {
    if name in n.attrs then Some(n.attrs[name]) else None
  }

  /** element.findall(tag): the children with that tag, in order. */
  function FindAll(n: Node, tag: string): (r: seq<Node>)
    ensures forall c :: c in r <==> c in n.children && c.tag == tag
  {
    Filter(n.children, tag)
  }

  function Filter(cs: seq<Node>, tag: string): (r: seq<Node>)
    ensures forall c :: c in r <==> c in cs && c.tag == tag
  {
    if cs == [] then []
    else (if cs[0].tag == tag then [cs[0]] else []) + Filter(cs[1..], tag)
  }

  /** element.find(tag): the first child with that tag. */
  function Find(n: Node, tag: string): (r: Option<Node>)
    ensures r.Some? <==> exists c :: c in n.children && c.tag == tag
    ensures r.Some? ==> r.value.tag == tag && r.value in n.children
  {
    var all := FindAll(n, tag);
    if all == [] then None else assert all[0] in all; Some(all[0])
  }

  /** The first of `cs` whose attribute `attr` is `value`. */
  function FirstWith(cs: seq<Node>, attr: string, value: string): (r: Option<Node>)
    ensures r.Some? <==> exists c :: c in cs && Get(c, attr) == Some(value)
    ensures r.Some? ==> r.value in cs && Get(r.value, attr) == Some(value)
  {
    if cs == [] then None
    else if Get(cs[0], attr) == Some(value) then Some(cs[0])
    else FirstWith(cs[1..], attr, value)
  }

  /** The elements of `cs` whose attribute `attr` is `value`, in order. */
  function AllWith(cs: seq<Node>, attr: string, value: string): (r: seq<Node>)
    ensures forall c :: c in r <==> c in cs && Get(c, attr) == Some(value)
  {
    if cs == [] then []
    else (if Get(cs[0], attr) == Some(value) then [cs[0]] else []) + AllWith(cs[1..], attr, value)
  }

  /** The grandchildren tagged `tag` under the children tagged `group`, in
      document order: the elements an ElementTree path "group/tag" visits. */
  function Grandchildren(n: Node, group: string, tag: string): seq<Node>
  {
    Flatten(n.children, group, tag)
  }

  function Flatten(cs: seq<Node>, group: string, tag: string): (r: seq<Node>)
    ensures forall g :: g in r <==> exists c :: c in cs && c.tag == group && g in FindAll(c, tag)
  {
    if cs == [] then []
    else (if cs[0].tag == group then FindAll(cs[0], tag) else []) + Flatten(cs[1..], group, tag)
  }

  /** element.find("group/tag[@attr='value']"). */
  function FindPath(n: Node, group: string, tag: string, attr: string, value: string): (r: Option<Node>)
    ensures r.Some? <==> exists g :: g in Grandchildren(n, group, tag) && Get(g, attr) == Some(value)
    ensures r.Some? ==> r.value.tag == tag && Get(r.value, attr) == Some(value)
  {
    FirstWith(Grandchildren(n, group, tag), attr, value)
  }

  /** element.findall(".//tag"): every element below `cs` with that tag, in
      document order (an element before its descendants). */
  function DescendantsIn(cs: seq<Node>, tag: string): (r: seq<Node>)
    ensures forall c :: c in cs && c.tag == tag ==> c in r
    ensures forall d :: d in r ==> d.tag == tag
  {
    if cs == [] then []
    else (if cs[0].tag == tag then [cs[0]] else []) + DescendantsIn(cs[0].children, tag) + DescendantsIn(cs[1..], tag)
  }

  function Descendants(n: Node, tag: string): seq<Node>
  {
    DescendantsIn(n.children, tag)
  }

  /** int(s, 16) on an attribute or a text: None raises a TypeError, a
      string that is not hexadecimal a ValueError. */
  function IntHex(s: Option<string>): (r: Result<nat, PyError>)
    ensures r.Ok? <==> s.Some? && ParseHex(s.value).Some?
    ensures r.Err? ==> r.error == (if s.None? then TypeError else ValueError)
  {
    if s.None? then Err(TypeError)
    else if ParseHex(s.value).None? then Err(ValueError)
    else Ok(ParseHex(s.value).value)
  }

  /** The lower-case hexadecimal digit of d < 16. */
  function HexChar(d: nat): (c: char)
    requires d < 16
    ensures HexDigit(c) == Some(d)
  {
    if d < 10 then ('0' as int + d) as char else ('a' as int + d - 10) as char
  }

  /** The lower-case hexadecimal digits of n, without leading zeros. */
  function NatToHex(n: nat): (s: string)
    ensures |s| >= 1 && forall i :: 0 <= i < |s| ==> HexDigit(s[i]).Some?
  {
    if n < 16 then [HexChar(n)] else NatToHex(n / 16) + [HexChar(n % 16)]
  }

  /** '%04x' % n: lower-case hexadecimal, padded with zeros to four digits. */
  function Hex04(n: nat): (s: string)
    ensures |s| >= 4 && forall i :: 0 <= i < |s| ==> HexDigit(s[i]).Some?
  {
    var h := NatToHex(n);
    if |h| < 4 then seq(4 - |h|, _ => '0') + h else h
  }

  lemma {:induction false} NatToHexValue(n: nat)
    ensures HexDigitsValue(NatToHex(n)) == Some(n)
  {
    var s := NatToHex(n);
    if n < 16 {
      assert s[..|s| - 1] == [];
    } else {
      assert s[..|s| - 1] == NatToHex(n / 16);
      NatToHexValue(n / 16);
    }
  }

  /** Leading zeros do not change the value of hexadecimal digits. */
  lemma {:induction false} LeadingZeros(k: nat, s: string)
    ensures HexDigitsValue(seq(k, _ => '0') + s) == HexDigitsValue(s)
    decreases |s|
  {
    var z := seq(k, _ => '0');
    if s == [] {
      assert z + s == z;
      ZerosValue(k);
    } else {
      var t := z + s;
      assert t[..|t| - 1] == z + s[..|s| - 1];
      assert t[|t| - 1] == s[|s| - 1];
      LeadingZeros(k, s[..|s| - 1]);
    }
  }

  lemma {:induction false} ZerosValue(k: nat)
    ensures HexDigitsValue(seq(k, _ => '0')) == Some(0)
  {
    if k > 0 {
      var z := seq(k, _ => '0');
      assert z[..k - 1] == seq(k - 1, _ => '0');
      ZerosValue(k - 1);
    }
  }

  /** int('%04x' % n, 16) == n: the channel's function is found by the id
      it was parsed from. */
  lemma Hex04RoundTrip(n: nat)
    ensures ParseHex(Hex04(n)) == Some(n)
  {
    NatToHexValue(n);
    var h := NatToHex(n);
    if |h| < 4 {
      LeadingZeros(4 - |h|, h);
    }
  }
}
