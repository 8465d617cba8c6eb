/** The three precedence tiers every splitter scans, lowest precedence first. */
module Tiers {

  datatype Tier = AddSub | MulDiv | Power

  /** Membership of an operator character in a tier. */
  predicate InTier(ch: char, tier: Tier)
  {
    match tier
    case AddSub => ch == '+' || ch == '-'
    case MulDiv => ch == '*' || ch == '/'
    case Power => ch == '^'
  }

  /** One of the five binary operator characters `+ - * / ^`. */
  predicate IsOperator(ch: char)
  {
    InTier(ch, AddSub) || InTier(ch, MulDiv) || InTier(ch, Power)
  }
}
