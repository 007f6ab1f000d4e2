/** The kinds of mail one agent sends another. */
module SendKinds {
  datatype Kind = Notice | Prompt | Steer
}
