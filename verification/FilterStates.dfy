/** The state that records, per filter id, what the user has chosen. */
module FilterStates {
  import opened Bytes
  import opened Results
  import opened Variants

  class FilterState {
    var state: VariantMap

    constructor (state: VariantMap)
      ensures this.state == state
    {
      this.state := state;
    }

    method HasFilter(id: Str) returns (r: Result<bool>)
      ensures r == if id == [] then Throws(InvalidArgument) else Ok(id in state)
    {
      if id == [] {
        return Throws(InvalidArgument);
      }
      return Ok(id in state);
    }

    method Get(id: Str) returns (r: Result<Variant>)
      ensures r.Ok? <==> id != [] && id in state
      ensures r.Ok? ==> r.value == state[id]
      ensures r.Throws? ==> r.error == InvalidArgument
    {
      if id == [] || id !in state {
        return Throws(InvalidArgument);
      }
      return Ok(state[id]);
    }

    method Remove(id: Str) returns (r: Result<()>)
      modifies this
      ensures r.Throws? <==> id == []
      ensures state == if id == [] then old(state) else old(state) - {id}
    {
      if id == [] {
        return Throws(InvalidArgument);
      }
      state := state - {id};
      return Ok(());
    }
  }
}
