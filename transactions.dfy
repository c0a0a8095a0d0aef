/** The transaction record of the finance tracker and its two enumerations,
    `TransactionType` and `Category`, each with a raw (stored) value, a
    user-facing display name, a failable decoder from a raw value, and the
    lenient decoder used when reading a stored transaction document. */
module Transactions {
  import opened Wrappers

  // ---------------------------------------------------------------------------
  // TransactionType: income or expense
  // ---------------------------------------------------------------------------

  datatype TransactionType = Income | Expense

  const AllTransactionTypes: seq<TransactionType> := [Income, Expense]

  /** The string stored for a transaction type. */
  function TypeRawValue(t: TransactionType): (raw: string)
    ensures raw in ["income", "expense"]
    ensures t == Income <==> raw == "income"
  {
    match t
    case Income => "income"
    case Expense => "expense"
  }

  /** The name shown to the user for a transaction type. */
  function TypeDisplayName(t: TransactionType): (name: string)
    ensures name in ["Entrada", "Saída"]
    ensures t == Income <==> name == "Entrada"
    ensures t == Expense <==> name == "Saída"
  {
    match t
    case Income => "Entrada"
    case Expense => "Saída"
  }

  /** Swift's failable `TransactionType(rawValue:)`: succeeds exactly on the
      raw value of some case, and then yields that case. */
  function TypeFromRawValue(raw: string): (r: Option<TransactionType>)
    ensures r.Some? <==> exists t :: TypeRawValue(t) == raw
    ensures r.Some? ==> TypeRawValue(r.value) == raw
  {
    if raw == "income" then assert TypeRawValue(Income) == raw; Some(Income)
    else if raw == "expense" then assert TypeRawValue(Expense) == raw; Some(Expense)
    else None
  }

  /** Reading the `type` field of a stored transaction: a missing or non-string
      field reads as "", and any string that is not a raw value falls back to
      `Expense`. So everything except exactly "income" decodes to `Expense`. */
  function DecodeTransactionType(field: Option<string>): (t: TransactionType)
    ensures t == Income <==> field == Some("income")
  {
    TypeFromRawValue(field.GetOr("")).GetOr(Expense)
  }

  lemma TypeRawValueRoundTrip(t: TransactionType)
    ensures TypeFromRawValue(TypeRawValue(t)) == Some(t)
    ensures DecodeTransactionType(Some(TypeRawValue(t))) == t
  {
  }

  /** Both enumerated types list every case exactly once. */
  lemma AllTransactionTypesComplete(t: TransactionType)
    ensures t in AllTransactionTypes
    ensures |AllTransactionTypes| == 2
    ensures AllTransactionTypes[0] != AllTransactionTypes[1]
  {
  }

  lemma TypeRawValueInjective(a: TransactionType, b: TransactionType)
    ensures TypeRawValue(a) == TypeRawValue(b) ==> a == b
  {
  }

  lemma TypeDisplayNameInjective(a: TransactionType, b: TransactionType)
    ensures TypeDisplayName(a) == TypeDisplayName(b) ==> a == b
  {
  }

  // ---------------------------------------------------------------------------
  // Category
  // ---------------------------------------------------------------------------

  datatype Category = Food | Transport | Entertainment | Health | Salary | Other

  const AllCategories: seq<Category> :=
    [Food, Transport, Entertainment, Health, Salary, Other]

  /** The string stored for a category: the case name in lower case. */
  function CategoryRawValue(c: Category): (raw: string)
    ensures raw in ["food", "transport", "entertainment", "health", "salary", "other"]
    ensures c == Food <==> raw == "food"
    ensures c == Transport <==> raw == "transport"
    ensures c == Entertainment <==> raw == "entertainment"
    ensures c == Health <==> raw == "health"
    ensures c == Salary <==> raw == "salary"
    ensures c == Other <==> raw == "other"
  {
    match c
    case Food => "food"
    case Transport => "transport"
    case Entertainment => "entertainment"
    case Health => "health"
    case Salary => "salary"
    case Other => "other"
  }

  /** The name shown to the user for a category. */
  function CategoryDisplayName(c: Category): (name: string)
    ensures name in ["Alimentação", "Transporte", "Entretenimento", "Saúde", "Salário", "Outros"]
    ensures c == Food <==> name == "Alimentação"
    ensures c == Transport <==> name == "Transporte"
    ensures c == Entertainment <==> name == "Entretenimento"
    ensures c == Health <==> name == "Saúde"
    ensures c == Salary <==> name == "Salário"
    ensures c == Other <==> name == "Outros"
  {
    match c
    case Food => "Alimentação"
    case Transport => "Transporte"
    case Entertainment => "Entretenimento"
    case Health => "Saúde"
    case Salary => "Salário"
    case Other => "Outros"
  }

  /** Swift's failable `Category(rawValue:)`. */
  function CategoryFromRawValue(raw: string): (r: Option<Category>)
    ensures r.Some? <==> exists c :: CategoryRawValue(c) == raw
    ensures r.Some? ==> CategoryRawValue(r.value) == raw
  {
    if raw == "food" then assert CategoryRawValue(Food) == raw; Some(Food)
    else if raw == "transport" then assert CategoryRawValue(Transport) == raw; Some(Transport)
    else if raw == "entertainment" then assert CategoryRawValue(Entertainment) == raw; Some(Entertainment)
    else if raw == "health" then assert CategoryRawValue(Health) == raw; Some(Health)
    else if raw == "salary" then assert CategoryRawValue(Salary) == raw; Some(Salary)
    else if raw == "other" then assert CategoryRawValue(Other) == raw; Some(Other)
    else None
  }

  /** Reading the `category` field of a stored transaction: a missing field or
      an unknown string falls back to `Other`; a raw value decodes to its case. */
  function DecodeCategory(field: Option<string>): (c: Category)
    ensures field == Some("food") ==> c == Food
    ensures field == Some("transport") ==> c == Transport
    ensures field == Some("entertainment") ==> c == Entertainment
    ensures field == Some("health") ==> c == Health
    ensures field == Some("salary") ==> c == Salary
    ensures field == Some("other") ==> c == Other
    ensures (exists k :: field == Some(CategoryRawValue(k))) ==> field == Some(CategoryRawValue(c))
    ensures (forall k :: field != Some(CategoryRawValue(k))) ==> c == Other
  {
    CategoryFromRawValue(field.GetOr("")).GetOr(Other)
  }

  lemma CategoryRawValueRoundTrip(c: Category)
    ensures CategoryFromRawValue(CategoryRawValue(c)) == Some(c)
    ensures DecodeCategory(Some(CategoryRawValue(c))) == c
  {
  }

  /** `AllCategories` holds the six cases, each exactly once. */
  lemma AllCategoriesComplete(c: Category)
    ensures c in AllCategories
    ensures |AllCategories| == 6
    ensures forall i, j :: 0 <= i < j < |AllCategories| ==> AllCategories[i] != AllCategories[j]
  {
  }

  lemma CategoryRawValueInjective(a: Category, b: Category)
    ensures CategoryRawValue(a) == CategoryRawValue(b) ==> a == b
  {
  }

  lemma CategoryDisplayNameInjective(a: Category, b: Category)
    ensures CategoryDisplayName(a) == CategoryDisplayName(b) ==> a == b
  {
  }

  // ---------------------------------------------------------------------------
  // Transaction record
  // ---------------------------------------------------------------------------

  /** A financial transaction. `amount` is a magnitude (whether money comes in
      or goes out is carried by `kind`); `date` is seconds on a fixed clock.
      The source's `type` field is called `kind` here. */
  datatype Transaction = Transaction(
    id: string,
    userId: string,
    amount: real,
    kind: TransactionType,
    category: Category,
    description: string,
    date: real)

  /** The memberwise initializer. The source defaults `id` to a fresh UUID and
      `date` to the current time; both defaults are taken as arguments here. */
  function NewTransaction(id: string, userId: string, amount: real, kind: TransactionType,
                          category: Category, description: string, date: real): (t: Transaction)
    ensures t.id == id && t.userId == userId && t.amount == amount
    ensures t.kind == kind && t.category == category
    ensures t.description == description && t.date == date
  {
    Transaction(id, userId, amount, kind, category, description, date)
  }
}
