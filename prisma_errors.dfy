/** Classification of the store's known request errors into HTTP terms. */
module PrismaErrors {

  import opened Common

  /** What the exception filter sends for an error: an HTTP status, a
      semantic code and a message. */
  datatype ResolvedError = ResolvedError(status: int, code: ErrorCode, message: Message)

  const DuplicateMessage := "Já existe um registro com esses dados."
  const NotFoundMessage := "Recurso não encontrado."
  const RelationMessage := "Erro de relacionamento entre dados."
  const StoreFailureMessage := "Erro inesperado no banco de dados."

  /** `mapPrismaError`: unique violations are conflicts, missing rows are
      not-found, foreign-key violations are bad requests, and every other
      code is an internal error. */
  function MapPrismaError(prismaCode: string): (r: ResolvedError)
    ensures prismaCode == P2002 ==> r == ResolvedError(CONFLICT, DuplicateResource, Text(DuplicateMessage))
    ensures prismaCode == P2025 ==> r == ResolvedError(NOT_FOUND, ResourceNotFound, Text(NotFoundMessage))
    ensures prismaCode == P2003 ==> r == ResolvedError(BAD_REQUEST, InvalidRelation, Text(RelationMessage))
    ensures prismaCode !in {P2002, P2025, P2003} ==>
              r == ResolvedError(INTERNAL_SERVER_ERROR, Unexpected, Text(StoreFailureMessage))
  {
    if prismaCode == P2002 then ResolvedError(CONFLICT, DuplicateResource, Text(DuplicateMessage))
    else if prismaCode == P2025 then ResolvedError(NOT_FOUND, ResourceNotFound, Text(NotFoundMessage))
    else if prismaCode == P2003 then ResolvedError(BAD_REQUEST, InvalidRelation, Text(RelationMessage))
    else ResolvedError(INTERNAL_SERVER_ERROR, Unexpected, Text(StoreFailureMessage))
  }

  /** The mapping is total, its status is one of four, the status and the
      code determine each other, and the message is always a single string. */
  lemma MapPrismaErrorTotal(prismaCode: string)
    ensures MapPrismaError(prismaCode).status in {CONFLICT, NOT_FOUND, BAD_REQUEST, INTERNAL_SERVER_ERROR}
    ensures MapPrismaError(prismaCode).code in {DuplicateResource, ResourceNotFound, InvalidRelation, Unexpected}
    ensures MapPrismaError(prismaCode).message.Text?
    ensures (MapPrismaError(prismaCode).status == INTERNAL_SERVER_ERROR)
            <==> (MapPrismaError(prismaCode).code == Unexpected)
    ensures (MapPrismaError(prismaCode).status == INTERNAL_SERVER_ERROR)
            <==> prismaCode !in {P2002, P2025, P2003}
  {
  }

  /** Two codes share a resolution only when both are unrecognised. */
  lemma MapPrismaErrorDistinguishes(a: string, b: string)
    requires a != b
    requires MapPrismaError(a) == MapPrismaError(b)
    ensures a !in {P2002, P2025, P2003} && b !in {P2002, P2025, P2003}
  {
  }
}
