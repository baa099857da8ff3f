/** The records of the expense-splitting application (src/lib/types.ts). Money is an
    exact real; ids and names are strings. */
module Types {

  /** The value the source signals with `undefined`. */
  datatype Option<+T> = None | Some(value: T)

  datatype Participant = Participant(id: string, name: string)

  datatype Expense = Expense(
    id: string,
    description: string,
    amount: real,
    payerId: string,
    participantIds: seq<string>)

  /** An expense before the registry gives it an id (`Omit<Expense, 'id'>`). */
  datatype ExpenseDraft = ExpenseDraft(
    description: string,
    amount: real,
    payerId: string,
    participantIds: seq<string>)

  datatype Event = Event(
    id: string,
    name: string,
    participants: seq<Participant>,
    expenses: seq<Expense>)

  /** A payment of `amount` from participant `from` to participant `to`. */
  datatype Transaction = Transaction(from: string, to: string, amount: real)
}
