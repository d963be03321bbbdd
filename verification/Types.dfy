/** The syntax of Nickel types, record rows and enum rows, as contract generation sees them. */
module Types {

  /** Identifiers are interned symbols. A generated one never equals one that was written down. */
  datatype Ident = Name(text: string) | Generated(index: nat)

  datatype Option<+T> = None | Some(value: T)

  datatype Polarity = Positive | Negative {
    function Flip(): Polarity {
      if this.Positive? then Negative else Positive
    }
  }

  datatype VarKind =
    | TypeKind
    | EnumRowsKind(excluded: set<Ident>)
    | RecordRowsKind(excluded: set<Ident>)

  datatype DictFlavour = TypeFlavour | ContractFlavour

  datatype Type =
    | Dyn
    | Number
    | Bool
    | String
    | ForeignId
    | Symbol
    | Wildcard(index: nat)
    | Contract(contract: nat)
    | Var(id: Ident)
    | Arrow(dom: Type, codom: Type)
    | Forall(v: Ident, kind: VarKind, body: Type)
    | Array(elem: Type)
    | Dict(field: Type, flavour: DictFlavour)
    | Record(rrows: RecordRows)
    | Enum(erows: EnumRows)

  datatype RecordRows =
    | REmpty
    | RDyn
    | RVar(id: Ident)
    | RExtend(id: Ident, typ: Type, tail: RecordRows)

  datatype EnumRows =
    | EEmpty
    | EVar(id: Ident)
    | EExtend(id: Ident, arg: Option<Type>, tail: EnumRows)

  /** The fields a record type lists. */
  function Declared(rows: RecordRows): set<Ident> {
    if rows.RExtend? then {rows.id} + Declared(rows.tail) else {}
  }

  /** What ends a list of record rows. */
  function TailOf(rows: RecordRows): (tail: RecordRows)
    ensures !tail.RExtend?
  {
    if rows.RExtend? then TailOf(rows.tail) else rows
  }

  /** No field is listed twice; the parser refuses record types that do (parser/src/uniterm.rs:412). */
  predicate DistinctRows(rows: RecordRows) {
    rows.RExtend? ==> rows.id !in Declared(rows.tail) && DistinctRows(rows.tail)
  }
}
