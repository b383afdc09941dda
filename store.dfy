/** The database: one table per entity, each a sequence of rows that the
    maintenance, user and profile handlers replace in place. */
module Store {
  import opened Records

  class Database {
    var users: seq<User>
    var pricing: seq<ModelPricing>
    var executions: seq<Execution>
    var leads: seq<Lead>
    var faqs: seq<Faq>

    /** The table constraints: user ids and emails are unique. */
    ghost predicate Valid()
      reads this
    {
      UniqueUsers(users)
    }

    constructor (users: seq<User>, pricing: seq<ModelPricing>, executions: seq<Execution>,
                 leads: seq<Lead>, faqs: seq<Faq>)
      requires UniqueUsers(users)
      ensures Valid()
      ensures this.users == users && this.pricing == pricing && this.executions == executions
      ensures this.leads == leads && this.faqs == faqs
    {
      this.users := users;
      this.pricing := pricing;
      this.executions := executions;
      this.leads := leads;
      this.faqs := faqs;
    }
  }
}
