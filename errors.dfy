/** The exceptions the social network throws, one constructor per exception
    class. Where the same class is thrown with different messages the
    message travels with it. */
module Errors {

  datatype Error =
    | InvalidLogin(message: string)
    | InvalidPassword(message: string)
    | UserNotFound(message: string)
    | Friendship(message: string)
    | MessageRefused(message: string)
    | AttributeNotFilled
    | NoMessages
    | CommunityNotFound
    | CommunityAlreadyExists
    | UserAlreadyInCommunity
    | UserNotInCommunity
    | AutoIdol
    | AutoCrush
    | AutoEnemy
    | IdolAlreadyExists
    | CrushAlreadyExists
    | EnemyAlreadyExists
    | InteractionWithEnemy(enemyName: string)

  /** The outcome of a `void` operation: it returned, or it threw. */
  datatype Outcome = Pass | Fail(error: Error)

  /** The outcome of an operation that returns a value. */
  datatype Result<T> = Ok(value: T) | Err(error: Error)

  // The messages the facade chooses between.
  const NotRegistered: string := "Usuário não cadastrado."
  const BadSession: string := "Sessão inválida."
  const BadLogin: string := "Login inválido."
  const LoginTaken: string := "Uma conta com este login já existe."
  const BadCredentials: string := "Login ou senha inválidos."
  const BadPassword: string := "Senha inválida."
  const SelfFriend: string := "Usuário não pode adicionar a si mesmo como amigo."
  const AlreadyFriend: string := "Usuário já está adicionado como amigo."
  const AwaitingAcceptance: string := "Usuário já está adicionado como amigo, esperando aceitação do convite."
  const SelfMessage: string := "Usuário não pode enviar recado para si mesmo."
  const NoNotes: string := "Não há recados."
}
