/** Field validators of the product serializer. */
module ProductValidation {
  import opened Results
  import opened Reservations
  import opened Products

  /** `validate_sales_price`: accepts exactly the values the model's field constraint
      accepts, and returns them unchanged. */
  function ValidateSalesPrice(value: real): (r: Result<real, string>)
    ensures r.Ok? <==> NonNegativeMoney(value)
    ensures r.Ok? ==> r.value == value
    ensures r.Err? ==> r.error == "Sales price must be positive."
  {
    if value < 0.0 then Err("Sales price must be positive.") else Ok(value)
  }

  /** `validate_cost`: same rule as the sales price, with its own message. */
  function ValidateCost(value: real): (r: Result<real, string>)
    ensures r.Ok? <==> NonNegativeMoney(value)
    ensures r.Ok? ==> r.value == value
    ensures r.Err? ==> r.error == "Cost must be positive."
  {
    if value < 0.0 then Err("Cost must be positive.") else Ok(value)
  }

  /** Some product other than `instance` (any product, when there is no instance)
      already carries `value`. */
  predicate ReferenceTaken(ps: map<ProductId, Product>, instance: Option<ProductId>, value: string) {
    exists k :: k in ps && Some(k) != instance && ps[k].internalReference == value
  }

  /** `validate_internal_reference`: on update the instance's own row is excluded from the
      lookup, on create every row counts. */
  function ValidateInternalReference(ps: map<ProductId, Product>, instance: Option<ProductId>, value: string)
    : (r: Result<string, string>)
    ensures r.Ok? <==> !ReferenceTaken(ps, instance, value)
    ensures r.Ok? ==> r.value == value
  {
    var taken :=
      match instance
      case Some(pk) => exists k :: k in ps && k != pk && ps[k].internalReference == value
      case None => exists k :: k in ps && ps[k].internalReference == value;
    if taken then Err("Internal reference must be unique.") else Ok(value)
  }

  /** Saving a product under a reference the validator accepted keeps references unique
      across the table, whether it creates a new row or updates its own. */
  lemma AcceptedReferenceKeepsUnique(ps: map<ProductId, Product>, instance: Option<ProductId>,
                                     key: ProductId, p: Product)
    requires UniqueReferences(ps)
    requires instance == Some(key) || (instance == None && key !in ps)
    requires ValidateInternalReference(ps, instance, p.internalReference).Ok?
    ensures UniqueReferences(ps[key := p])
  {
    var ps' := ps[key := p];
    forall a, b | a in ps' && b in ps' && a != b
      ensures ps'[a].internalReference != ps'[b].internalReference
    {
      if a == key {
        assert !(b in ps && Some(b) != instance && ps[b].internalReference == p.internalReference);
      } else if b == key {
        assert !(a in ps && Some(a) != instance && ps[a].internalReference == p.internalReference);
      }
    }
  }

  /** Keeping one's own reference on update is accepted when the table is consistent. */
  lemma OwnReferenceAccepted(ps: map<ProductId, Product>, key: ProductId)
    requires UniqueReferences(ps)
    requires key in ps
    ensures ValidateInternalReference(ps, Some(key), ps[key].internalReference).Ok?
  {
  }

  /** On create, a reference already in the table is rejected. */
  lemma ExistingReferenceRejectedOnCreate(ps: map<ProductId, Product>, key: ProductId)
    requires key in ps
    ensures ValidateInternalReference(ps, None, ps[key].internalReference).Err?
  {
  }
}
