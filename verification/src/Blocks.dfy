/** Blocks and transactions as data: `src/core/block.rs`, `src/core/transaction.rs`. */
module Blocks {
  import opened Common

  datatype ValidatorCommitment = ValidatorCommitment(publicKey: Bytes, nullifier: Bytes)

  datatype BlockHeader = BlockHeader(
    version: u32, height: u64, timestamp: int, prevHash: Bytes, txRoot: Bytes, stateRoot: Bytes,
    commitment: ValidatorCommitment, round: u32
  )

  datatype StealthOutput = StealthOutput(
    oneTimePubkey: Bytes, txPubkey: Bytes, amountCommitment: Bytes, encryptedAmount: Bytes, rangeProof: Bytes
  )

  datatype RingInput = RingInput(ringMembers: seq<Bytes>, keyImage: Bytes, ringSignature: Bytes, pseudoCommitment: Bytes)

  datatype TxType = Transfer | Coinbase | StakeDeposit | Lite | StakeWithdraw

  datatype Transaction = Transaction(
    txType: TxType, inputs: seq<RingInput>, outputs: seq<StealthOutput>,
    feeCommitment: Bytes, feeProof: Bytes, extra: Bytes, version: byte
  )

  datatype ValidatorSignature = ValidatorSignature(commitment: ValidatorCommitment, signature: Bytes)

  datatype Block = Block(header: BlockHeader, transactions: seq<Transaction>, signatures: seq<ValidatorSignature>)
}
