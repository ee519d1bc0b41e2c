/** preprocess.py: the parsers' shared rule that an element's id moves into
    an anchor at the head of its body. */
module Preprocess {
  import opened Wrappers
  import opened Internal
  import Sectionize

  /** The tags whose id stays where it is. */
  const KEEPS_ID: seq<string> := ["dl", "ol", "ul", "aside"]

  /** `mkel('a', dict(name=id), [])`. */
  function NameAnchor(id: AttrVal): (r: Node)
    ensures r.Elem? && r.tag == "a" && r.body == [] && r.attrs.Keys == {"name"} && r.attrs["name"] == id
  {
    Elem("a", map["name" := id], [])
  }

  /** What `maybe_anchorize_id(tag, attrs, body)` leaves in `attrs` and
      `body`. */
  function AnchorizeId(tag: string, attrs: WAttrs, body: seq<Node>): (r: (WAttrs, seq<Node>))
    ensures "id" !in attrs || tag in KEEPS_ID <==> r == (attrs, body)
    ensures "id" in attrs && tag !in KEEPS_ID ==>
      r.0 == attrs - {"id"} && r.1 == [NameAnchor(attrs["id"])] + body
  {
    if "id" in attrs && tag !in KEEPS_ID then
      (attrs - {"id"}, [NameAnchor(attrs["id"])] + body)
    else (attrs, body)
  }

  /** Every attribute other than `id` is left alone, and the old body follows
      whatever was put in front of it. */
  lemma AnchorizeKeepsRest(tag: string, attrs: WAttrs, body: seq<Node>)
    ensures var (a, b) := AnchorizeId(tag, attrs, body);
      (forall k :: k in attrs && k != "id" ==> k in a && a[k] == attrs[k]) &&
      (forall k :: k in a ==> k in attrs) &&
      |b| >= |body| && b[|b| - |body|..] == body
  {
    var (a, b) := AnchorizeId(tag, attrs, body);
    if "id" in attrs && tag !in KEEPS_ID {
      assert b[1..] == body;
    } else {
      assert b[0..] == body;
    }
  }

  /** A second application finds no id and changes nothing. */
  lemma AnchorizeIdempotent(tag: string, attrs: WAttrs, body: seq<Node>)
    ensures var (a, b) := AnchorizeId(tag, attrs, body);
      AnchorizeId(tag, a, b) == (a, b)
  {
  }

  /** `lift_anchor_id` with `kill_anchor` undoes the push: it finds the
      anchor, gives its name back as the id, drops the anchor and hands out
      no generated id. */
  lemma LiftUndoesAnchorize(tag: string, attrs: WAttrs, body: seq<Node>, n: nat)
    requires "id" in attrs && tag !in KEEPS_ID
    ensures var (a, b) := AnchorizeId(tag, attrs, body);
      Sectionize.LiftAnchorId(a, b, true, n) == (Sectionize.Lifted(attrs, body), n)
  {
    var (a, b) := AnchorizeId(tag, attrs, body);
    assert Sectionize.AnchorRef(b) == Some(attrs["id"]);
    assert b[1..] == body;
    assert a["id" := attrs["id"]] == attrs;
  }

  /** The caller's attrs dict. */
  class AttrsObject {
    var value: WAttrs

    constructor (value: WAttrs)
      ensures this.value == value
    {
      this.value := value;
    }
  }

  /** The caller's body list. */
  class BodyList {
    var items: seq<Node>

    constructor (items: seq<Node>)
      ensures this.items == items
    {
      this.items := items;
    }
  }

  /** `maybe_anchorize_id(tag, attrs, body)`: destructively insert the
      anchor at index 0 of `body` and delete `attrs['id']`. */
  method MaybeAnchorizeId(tag: string, attrs: AttrsObject, body: BodyList)
    modifies attrs, body
    ensures (attrs.value, body.items) == AnchorizeId(tag, old(attrs.value), old(body.items))
  {
    if "id" in attrs.value {
      if tag !in KEEPS_ID {
        body.items := [NameAnchor(attrs.value["id"])] + body.items;
        attrs.value := attrs.value - {"id"};
      }
    }
  }
}
