/** The rows of the database tables the handlers read and write. A nullable
    number is written as 0 when null: every use in the handlers (`x || 0`,
    `x || 1`, truthiness tests, `Number(x || 0)`) treats null and 0 alike. */
module Records {
  import opened Common

  datatype Status = Success | Error

  /** One automated agent run. `costUsd` is 0 when no cost was recorded. */
  datatype Execution = Execution(
    id: string,
    agentName: Option<string>,
    modelUsed: Option<string>,
    status: Status,
    startedAt: int,
    inputTokens: int,
    outputTokens: int,
    totalTokens: int,
    costUsd: real,
    leadId: Option<string>)

  /** A contact captured by an agent. `date` is the capture date,
      `createdAt` the instant the row was written. */
  datatype Lead = Lead(
    id: string,
    name: Option<string>,
    email: Option<string>,
    phone: Option<string>,
    source: Option<string>,
    date: int,
    createdAt: int)

  /** One observed question; `frequency` is 0 when null. */
  datatype Faq = Faq(
    id: string,
    question: string,
    category: Option<string>,
    frequency: int,
    agentName: Option<string>,
    date: int)

  /** The weight a FAQ row counts for when frequencies are summed:
      `frequency || 1`, so a null or zero frequency counts once. */
  function EffectiveFrequency(f: Faq): (w: int)
    ensures f.frequency != 0 ==> w == f.frequency
    ensures f.frequency == 0 ==> w == 1
    ensures w != 0
  {
    if f.frequency != 0 then f.frequency else 1
  }

  function FaqFrequency(f: Faq): int {
    f.frequency
  }

  datatype User = User(
    id: string,
    email: string,
    passwordHash: string,
    name: string,
    role: Role,
    createdAt: int,
    lastLogin: Option<int>)

  /** Prices are in US dollars per million tokens. */
  datatype ModelPricing = ModelPricing(
    modelName: string,
    provider: string,
    inputPricePer1m: real,
    outputPricePer1m: real)

  /** The user table's unique keys: `id` and `email`. */
  ghost predicate UniqueUsers(users: seq<User>) {
    forall i, j :: 0 <= i < j < |users| ==> users[i].id != users[j].id && users[i].email != users[j].email
  }
}
