/**
 * Binding a statement by name: each `:name` token becomes a numbered
 * placeholder in first-appearance order, and the values follow that order.
 */
module NamedBinds {
  import opened Prelude

  datatype Piece = Text(text: string) | Name(name: string)
  datatype BoundPiece = Plain(text: string) | Slot(number: nat)

  /** Every name is supplied. */
  predicate Supplied<V>(statement: seq<Piece>, values: map<string, V>) {
    forall p | p in statement && p.Name? :: p.name in values
  }

  function IndexOfName(order: seq<string>, name: string): (at: int)
    ensures at == -1 <==> name !in order
    ensures at != -1 ==> 0 <= at < |order| && order[at] == name
  {
    if order == [] then -1
    else if order[0] == name then 0
    else var rest := IndexOfName(order[1..], name); if rest == -1 then -1 else rest + 1
  }

  /**
   * Fails exactly when a name has no value; otherwise each token is bound to
   * its own name's value, whatever the order the conditions were appended in,
   * and every bound name is used and bound once.
   */
  method BindNamed<V(==)>(statement: seq<Piece>, values: map<string, V>)
    returns (r: Option<(seq<BoundPiece>, seq<V>)>, order: seq<string>)
    ensures r.Some? <==> Supplied(statement, values)
    ensures r.Some? ==>
              var (sql, bindings) := r.value;
              |sql| == |statement| && forall i | 0 <= i < |statement| ::
                match statement[i]
                case Text(t) => sql[i] == Plain(t)
                case Name(n) =>
                  && sql[i].Slot? && 1 <= sql[i].number <= |bindings|
                  && n in values && bindings[sql[i].number - 1] == values[n]
    ensures r.Some? ==> |r.value.1| == |order|
    ensures Distinct(order) && forall n :: n in order <==> Name(n) in statement
  {
    order := [];
    var sql: seq<BoundPiece> := [];
    for i := 0 to |statement|
      invariant |sql| == i && Distinct(order)
      invariant forall n :: n in order <==> Name(n) in statement[..i]
      invariant forall j | 0 <= j < i ::
        match statement[j]
        case Text(t) => sql[j] == Plain(t)
        case Name(n) => sql[j].Slot? && 1 <= sql[j].number <= |order| && order[sql[j].number - 1] == n
    {
      match statement[i]
      case Text(t) => sql := sql + [Plain(t)];
      case Name(n) =>
        var at := IndexOfName(order, n);
        if at == -1 {
          order := order + [n];
          at := |order| - 1;
        }
        sql := sql + [Slot(at + 1)];
    }
    assert statement[..|statement|] == statement;
    var bindings: seq<V> := [];
    for k := 0 to |order|
      invariant |bindings| == k
      invariant forall j | 0 <= j < k :: order[j] in values && bindings[j] == values[order[j]]
    {
      if order[k] !in values {
        assert Name(order[k]) in statement;
        return None, order;
      }
      bindings := bindings + [values[order[k]]];
    }
    r := Some((sql, bindings));
  }
}
