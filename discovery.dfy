/**
 * Field discovery: the project's custom fields arrive as a list of typed
 * nodes (single-select, iteration, or anything else) and are normalised
 * into one record shape, with each single-select field's options indexed
 * by name.
 */
module Discovery {
  import opened Wrappers

  /**
   * An opaque remote identifier. A `nil` identifier is modelled as `None` of
   * an `Option<ID>`; "" is a literal empty identifier, which the update guard
   * refuses.
   */
  type ID = string

  datatype OptionNode = OptionNode(id: ID, name: string)

  /** One node of the `fields(first: 50)` query result, by its `__typename`. */
  datatype FieldNode =
    | SingleSelect(id: ID, name: string, options: seq<OptionNode>)
    | Iteration(id: ID, name: string)
    | Other(typename: string)

  /** `ProjectFieldInfo`: a field with its option name -> option ID map. */
  datatype ProjectField = ProjectField(id: ID, name: string, options: map<string, ID>)

  /** Errors field discovery returns. */
  datatype Error =
    | ClientNil                      // "github GraphQL client is nil"
    | QueryFailed(cause: string)     // "failed to query project fields: ..."

  /** The options map built by inserting the options in order. */
  function OptionMap(opts: seq<OptionNode>): map<string, ID> {
    if |opts| == 0 then map[]
    else OptionMap(opts[..|opts| - 1])[opts[|opts| - 1].name := opts[|opts| - 1].id]
  }

  /**
   * The options map has exactly the option names as keys, and a repeated
   * name maps to the ID of its last occurrence.
   */
  lemma {:induction false} OptionMapSpec(opts: seq<OptionNode>)
    ensures OptionMap(opts).Keys == set i | 0 <= i < |opts| :: opts[i].name
    ensures forall i :: (0 <= i < |opts| && (forall j :: i < j < |opts| ==> opts[j].name != opts[i].name)
      ==> OptionMap(opts)[opts[i].name] == opts[i].id)
  {
    OptionMapKeys(opts);
    forall i | 0 <= i < |opts| && (forall j :: i < j < |opts| ==> opts[j].name != opts[i].name)
      ensures OptionMap(opts)[opts[i].name] == opts[i].id
    {
      OptionMapValue(opts, i);
    }
  }

  lemma {:induction false} OptionMapKeys(opts: seq<OptionNode>)
    ensures OptionMap(opts).Keys == set i | 0 <= i < |opts| :: opts[i].name
  {
    if |opts| > 0 {
      var init := opts[..|opts| - 1];
      OptionMapKeys(init);
      assert forall i :: 0 <= i < |init| ==> init[i] == opts[i];
      assert (set i | 0 <= i < |opts| :: opts[i].name)
        == (set i | 0 <= i < |init| :: init[i].name) + {opts[|opts| - 1].name};
    }
  }

  /** The last option carrying a name gives that name its ID. */
  lemma {:induction false} OptionMapValue(opts: seq<OptionNode>, i: nat)
    requires i < |opts|
    requires forall j :: i < j < |opts| ==> opts[j].name != opts[i].name
    ensures opts[i].name in OptionMap(opts) && OptionMap(opts)[opts[i].name] == opts[i].id
  {
    var n := |opts| - 1;
    var init := opts[..n];
    assert OptionMap(opts) == OptionMap(init)[opts[n].name := opts[n].id];
    if i < n {
      assert init[i] == opts[i];
      assert forall j :: i < j < |init| ==> init[j] == opts[j];
      OptionMapValue(init, i);
    }
  }

  /** The field a node normalises to; nodes of any other type are dropped. */
  function FieldOf(node: FieldNode): Option<ProjectField> {
    match node
    case SingleSelect(id, name, opts) => Some(ProjectField(id, name, OptionMap(opts)))
    case Iteration(id, name) => Some(ProjectField(id, name, map[]))
    case Other(_) => None
  }

  function Normalize(nodes: seq<FieldNode>): seq<ProjectField> {
    if |nodes| == 0 then []
    else
      Normalize(nodes[..|nodes| - 1])
        + match FieldOf(nodes[|nodes| - 1]) case Some(f) => [f] case None => []
  }

  /** Number of nodes of a recognised type. */
  function KeptCount(nodes: seq<FieldNode>): nat {
    if |nodes| == 0 then 0
    else KeptCount(nodes[..|nodes| - 1]) + if nodes[|nodes| - 1].Other? then 0 else 1
  }

  /** Normalisation works node by node: it distributes over concatenation. */
  lemma {:induction false} NormalizeAppend(a: seq<FieldNode>, b: seq<FieldNode>)
    ensures Normalize(a + b) == Normalize(a) + Normalize(b)
    decreases |b|
  {
    if |b| == 0 {
      assert a + b == a;
    } else {
      var b' := b[..|b| - 1];
      NormalizeAppend(a, b');
      assert (a + b)[..|a + b| - 1] == a + b';
    }
  }

  /**
   * Normalisation keeps exactly the single-select and iteration nodes, in
   * input order: one field per recognised node, nothing for the others, and
   * so never more fields than nodes.
   */
  lemma {:induction false} NormalizeKeeps(nodes: seq<FieldNode>)
    ensures |Normalize(nodes)| == KeptCount(nodes) <= |nodes|
    ensures forall k :: 0 <= k < |Normalize(nodes)| ==>
      exists i :: 0 <= i < |nodes| && FieldOf(nodes[i]) == Some(Normalize(nodes)[k])
    ensures forall i :: 0 <= i < |nodes| && !nodes[i].Other? ==>
      Normalize(nodes[..i + 1]) == Normalize(nodes[..i]) + [FieldOf(nodes[i]).value]
  {
    if |nodes| > 0 {
      var init := nodes[..|nodes| - 1];
      NormalizeKeeps(init);
      forall i | 0 <= i < |nodes| && !nodes[i].Other?
        ensures Normalize(nodes[..i + 1]) == Normalize(nodes[..i]) + [FieldOf(nodes[i]).value]
      {
        assert nodes[..i + 1][..i] == nodes[..i];
      }
      forall k | 0 <= k < |Normalize(nodes)|
        ensures exists i :: 0 <= i < |nodes| && FieldOf(nodes[i]) == Some(Normalize(nodes)[k])
      {
        if k < |Normalize(init)| {
          var i :| 0 <= i < |init| && FieldOf(init[i]) == Some(Normalize(init)[k]);
          assert nodes[i] == init[i];
        } else {
          assert FieldOf(nodes[|nodes| - 1]) == Some(Normalize(nodes)[k]);
        }
      }
    }
  }

  /** An unrecognised node contributes nothing, wherever it sits. */
  lemma DropsOther(a: seq<FieldNode>, typename: string, b: seq<FieldNode>)
    ensures Normalize(a + [Other(typename)] + b) == Normalize(a) + Normalize(b)
  {
    var other := [Other(typename)];
    assert other[..0] == [];
    assert Normalize(other) == [];
    NormalizeAppend(a, other);
    NormalizeAppend(a + other, b);
  }

  /** An iteration field is kept with no options. */
  lemma IterationHasNoOptions(a: seq<FieldNode>, id: ID, name: string, b: seq<FieldNode>)
    ensures Normalize(a + [Iteration(id, name)] + b) == Normalize(a) + [ProjectField(id, name, map[])] + Normalize(b)
  {
    NormalizeAppend(a + [Iteration(id, name)], b);
    NormalizeAppend(a, [Iteration(id, name)]);
    assert [Iteration(id, name)][..0] == [];
  }

  /**
   * `GetProjectFields`: fails when there is no client or the query fails;
   * otherwise builds the field list node by node, filling each options map
   * in place.
   */
  method GetProjectFields(hasClient: bool, query: Result<seq<FieldNode>, string>)
    returns (r: Result<seq<ProjectField>, Error>)
    ensures !hasClient ==> r == Failure(ClientNil)
    ensures hasClient && query.Failure? ==> r == Failure(QueryFailed(query.error))
    ensures hasClient && query.Success? ==> r == Success(Normalize(query.value))
  {
    if !hasClient {
      return Failure(ClientNil);
    }
    if query.Failure? {
      return Failure(QueryFailed(query.error));
    }
    var nodes := query.value;
    var fields: seq<ProjectField> := [];
    for n := 0 to |nodes|
      invariant fields == Normalize(nodes[..n])
    {
      assert nodes[..n + 1][..n] == nodes[..n];
      var node := nodes[n];
      var fieldID: ID, fieldName: string;
      var options: map<string, ID> := map[];
      match node {
        case SingleSelect(id, name, opts) =>
          fieldID, fieldName := id, name;
          for j := 0 to |opts|
            invariant options == OptionMap(opts[..j])
          {
            assert opts[..j + 1][..j] == opts[..j];
            options := options[opts[j].name := opts[j].id];
          }
          assert opts[..|opts|] == opts;
        case Iteration(id, name) =>
          fieldID, fieldName := id, name;
        case Other(_) =>
          continue;
      }
      fields := fields + [ProjectField(fieldID, fieldName, options)];
    }
    assert nodes[..|nodes|] == nodes;
    return Success(fields);
  }
}
