/** The viewer's graph table: which windows are open, and in which theme. */
module ViewerGraphs {
  import opened Samples
  import opened StreamOps
  import opened Registry
  import opened ConfigProtocol

  datatype Window = Window(id: nat, theme: Theme)

  predicate Distinct(slots: seq<Option<Window>>) {
    forall i, j :: 0 <= i < j < |slots| && slots[i].Some? && slots[j].Some? ==>
      slots[i].value.id != slots[j].value.id
  }

  predicate HasRoom(slots: seq<Option<Window>>) {
    exists i :: 0 <= i < |slots| && slots[i].None?
  }

  /** The open windows. */
  function Themes(slots: seq<Option<Window>>): (r: map<nat, Theme>)
    requires Distinct(slots)
  {
    map i | 0 <= i < |slots| && slots[i].Some? :: slots[i].value.id := slots[i].value.theme
  }

  lemma HasTheme(slots: seq<Option<Window>>, i: nat)
    requires Distinct(slots) && i < |slots| && slots[i].Some?
    ensures slots[i].value.id in Themes(slots) && Themes(slots)[slots[i].value.id] == slots[i].value.theme
  {
  }

  lemma SlotOfTheme(slots: seq<Option<Window>>, id: nat) returns (i: nat)
    requires Distinct(slots) && id in Themes(slots)
    ensures i < |slots| && slots[i] == Some(Window(id, Themes(slots)[id]))
  {
    i :| 0 <= i < |slots| && slots[i].Some? && slots[i].value.id == id;
  }

  /** Two tables that agree outside slot `i` agree on every window held outside it. */
  lemma SameElsewhere(slots: seq<Option<Window>>, after: seq<Option<Window>>, i: nat, id: nat)
    requires Distinct(slots) && Distinct(after) && i < |slots| == |after|
    requires forall j :: 0 <= j < |slots| && j != i ==> slots[j] == after[j]
    requires slots[i].Some? ==> slots[i].value.id != id
    requires after[i].Some? ==> after[i].value.id != id
    ensures id in Themes(after) <==> id in Themes(slots)
    ensures id in Themes(after) ==> Themes(after)[id] == Themes(slots)[id]
  {
    hide Themes;
    if id in Themes(slots) {
      var j := SlotOfTheme(slots, id);
      HasTheme(after, j);
    } else if id in Themes(after) {
      var j := SlotOfTheme(after, id);
      HasTheme(slots, j);
    }
  }

  lemma PutKeepsDistinct(slots: seq<Option<Window>>, i: nat, w: Window)
    requires Distinct(slots) && i < |slots|
    requires slots[i].Some? ==> slots[i].value.id == w.id
    requires slots[i].None? ==> w.id !in Themes(slots)
    ensures Distinct(slots[i := Some(w)])
  {
    hide Themes;
    forall j | 0 <= j < |slots| && slots[j].Some? && j != i
      ensures slots[j].value.id != w.id
    {
      HasTheme(slots, j);
    }
  }

  lemma PutWindow(slots: seq<Option<Window>>, i: nat, w: Window)
    requires Distinct(slots) && i < |slots|
    requires slots[i].Some? ==> slots[i].value.id == w.id
    requires slots[i].None? ==> w.id !in Themes(slots)
    ensures Distinct(slots[i := Some(w)]) && Themes(slots[i := Some(w)]) == Themes(slots)[w.id := w.theme]
  {
    PutKeepsDistinct(slots, i, w);
    hide Themes, Distinct;
    var after := slots[i := Some(w)];
    HasTheme(after, i);
    forall id | id != w.id
      ensures id in Themes(after) <==> id in Themes(slots)
      ensures id in Themes(after) ==> Themes(after)[id] == Themes(slots)[id]
    {
      SameElsewhere(slots, after, i, id);
    }
  }

  lemma TakeWindow(slots: seq<Option<Window>>, i: nat)
    requires Distinct(slots) && i < |slots| && slots[i].Some?
    ensures Distinct(slots[i := None]) && Themes(slots[i := None]) == Themes(slots) - {slots[i].value.id}
  {
    var after, taken := slots[i := None], slots[i].value.id;
    assert taken !in Themes(after);
    hide Themes;
    forall id | id != taken
      ensures id in Themes(after) <==> id in Themes(slots)
      ensures id in Themes(after) ==> Themes(after)[id] == Themes(slots)[id]
    {
      SameElsewhere(slots, after, i, id);
    }
  }

  class Windows {
    const graphs: array<Option<Window>>

    ghost predicate Valid()
      reads graphs
    {
      Distinct(graphs[..])
    }

    ghost function Open(): map<nat, Theme>
      requires Valid()
      reads graphs
    {
      Themes(graphs[..])
    }

    constructor (capacity: nat)
      ensures Valid() && fresh(graphs) && Open() == map[] && graphs.Length == capacity
    {
      graphs := new Option<Window>[capacity](_ => None);
      new;
      assert forall i :: 0 <= i < capacity ==> graphs[..][i] == None;
    }

    method FindGraph(id: nat) returns (i: nat)
      requires Valid()
      ensures i <= graphs.Length && (i < graphs.Length <==> id in Open())
      ensures i < graphs.Length ==> graphs[i].Some? && graphs[i].value.id == id && Open()[id] == graphs[i].value.theme
    {
      i := 0;
      while i < graphs.Length
        invariant i <= graphs.Length
        invariant forall j :: 0 <= j < i && graphs[j].Some? ==> graphs[j].value.id != id
      {
        if graphs[i].Some? && graphs[i].value.id == id {
          assert graphs[..][i] == Some(graphs[i].value);
          return;
        }
        i := i + 1;
      }
      assert forall j :: 0 <= j < |graphs[..]| && graphs[..][j].Some? ==> graphs[..][j].value.id != id;
    }

    /** `create_graph`: the first free slot; windows and buffers may be refused. */
    method CreateGraph(id: nat, theme: Theme, hasResources: bool) returns (created: bool)
      requires Valid() && id !in Open()
      modifies graphs
      ensures Valid()
      ensures created <==> hasResources && HasRoom(old(graphs[..]))
      ensures Open() == if created then old(Open())[id := theme] else old(Open())
    {
      var i := 0;
      while i < graphs.Length && graphs[i].Some?
        invariant i <= graphs.Length && forall j :: 0 <= j < i ==> graphs[j].Some?
      {
        i := i + 1;
      }
      if i == graphs.Length || !hasResources {
        return false;
      }
      PutWindow(graphs[..], i, Window(id, theme));
      ghost var before := graphs[..];
      assert before[i].None?;
      graphs[i] := Some(Window(id, theme));
      assert graphs[..] == before[i := Some(Window(id, theme))];
      return true;
    }

    /** `process_config_packet` of a valid packet: what `ConfigStep` does to the windows, an
        acknowledgement going out exactly when the configuration is in effect. */
    method ProcessConfig(id: nat, theme: Theme, hasResources: bool) returns (acknowledge: bool)
      requires Valid()
      modifies graphs
      ensures Valid()
      ensures acknowledge <==> id in Open() && Open()[id] == theme
      ensures Open() == if acknowledge then old(Open())[id := theme] else old(Open())
      ensures acknowledge <==> id in old(Open()) || (hasResources && HasRoom(old(graphs[..])))
    {
      var i := FindGraph(id);
      if i == graphs.Length {
        var created := CreateGraph(id, theme, hasResources);
        return created;
      }
      PutWindow(graphs[..], i, Window(id, theme));
      ghost var before := graphs[..];
      if graphs[i].value.theme != theme {
        graphs[i] := Some(graphs[i].value.(theme := theme));
      }
      assert graphs[..] == before[i := Some(Window(id, theme))];
      return true;
    }

    /** `process_graph_close_packet`; also what the user's closing of a window does. */
    method CloseGraph(id: nat)
      requires Valid()
      modifies graphs
      ensures Valid() && Open() == old(Open()) - {id}
    {
      var i := FindGraph(id);
      if i < graphs.Length {
        TakeWindow(graphs[..], i);
        ghost var before := graphs[..];
        graphs[i] := None;
        assert graphs[..] == before[i := None];
      }
    }

    /** One packet of the configuration protocol, as the protocol's viewer step says. */
    method Receive(ghost w: World, p: Stamped, hasResources: bool) returns (acknowledge: bool)
      requires Valid() && Open() == w.windows
      modifies graphs
      ensures Valid()
      ensures p.msg.Close? ==> !acknowledge && Open() == CloseStep(w, p.msg.id).windows
      ensures p.msg.Config? ==>
        && (acknowledge <==> p.msg.id in w.windows || (hasResources && HasRoom(old(graphs[..]))))
        && Open() == ConfigStep(w, p, acknowledge).windows
        && (acknowledge <==> Ack(p.msg.id, p.msg.sequence, p.stamp) in ConfigStep(w.(acks := {}), p, acknowledge).acks)
    {
      acknowledge := false;
      if p.msg.Config? {
        acknowledge := ProcessConfig(p.msg.id, p.msg.theme, hasResources);
      } else {
        CloseGraph(p.msg.id);
      }
    }
  }
}
